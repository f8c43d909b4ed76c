/** The field extractor for Syllabus Review Forms (backend/field_extractor.py): text
    normalisation, the "last group, stripped" rule for searches, name-list splitting and
    capitalisation, whole-word counting and the assembly of the field record. The regular
    expressions whose matching is not spelled out here are oracles passed in as functions. */
module Fields {
  import opened Common
  import opened Text

  const EmDash: char := '\U{2014}'
  const EnDash: char := '\U{2013}'

  /** `t.replace("—", "-").replace("–", "-")` */
  function UnifyDashes(s: string): (r: string)
    ensures |r| == |s|
    ensures forall i :: 0 <= i < |s| ==> r[i] == if s[i] == EmDash || s[i] == EnDash then '-' else s[i]
  {
    seq(|s|, i requires 0 <= i < |s| => if s[i] == EmDash || s[i] == EnDash then '-' else s[i])
  }

  predicate NoDash(s: string) {
    forall i :: 0 <= i < |s| ==> s[i] != EmDash && s[i] != EnDash
  }

  /** White space at index `i` and at the next index. */
  predicate SpacePairAt(s: string, i: int) {
    0 <= i < |s| - 1 && IsSpace(s[i]) && IsSpace(s[i + 1])
  }

  /** All white space in `s` is single spaces. */
  predicate SingleSpaced(s: string) {
    && (forall i :: 0 <= i < |s| && IsSpace(s[i]) ==> s[i] == ' ')
    && (forall i :: 0 <= i < |s| ==> !SpacePairAt(s, i))
  }

  /** `s` neither starts nor ends with white space. */
  predicate Stripped(s: string) {
    s != [] ==> !IsSpace(s[0]) && !IsSpace(s[|s| - 1])
  }

  /** `re.sub(r"\s+", " ", s)`: every maximal run of white space becomes one space. */
  function CollapseSpace(s: string): (r: string)
    ensures |r| <= |s|
    ensures r == [] <==> s == []
    ensures r != [] ==> (IsSpace(r[0]) <==> IsSpace(s[0]))
    ensures SingleSpaced(r)
    decreases |s|
  {
    if s == [] then []
    else
      var n := if IsSpace(s[0]) then RunLength(s, IsSpace) else 1;
      var rest := CollapseSpace(s[n..]);
      var r := [if IsSpace(s[0]) then ' ' else s[0]] + rest;
      assert forall i :: SpacePairAt(r, i) ==> i == 0 || SpacePairAt(rest, i - 1);
      r
  }

  /** Collapsing white space brings in no dash. */
  lemma {:induction false} CollapseNoDash(s: string)
    requires NoDash(s)
    ensures NoDash(CollapseSpace(s))
    decreases |s|
  {
    if s != [] {
      if IsSpace(s[0]) {
        CollapseNoDash(s[RunLength(s, IsSpace)..]);
      } else {
        CollapseNoDash(s[1..]);
      }
    }
  }

  /** The characters of `s` that are not white space, in order. */
  function Visible(s: string): string
    decreases |s|
  {
    if s == [] then [] else (if IsSpace(s[0]) then [] else [s[0]]) + Visible(s[1..])
  }

  lemma {:induction false} VisibleAppend(a: string, b: string)
    ensures Visible(a + b) == Visible(a) + Visible(b)
    decreases |a|
  {
    if a != [] {
      assert (a + b)[0] == a[0] && (a + b)[1..] == a[1..] + b;
      VisibleAppend(a[1..], b);
      var h := if IsSpace(a[0]) then [] else [a[0]];
      calc {
        Visible(a + b);
        h + Visible(a[1..] + b);
        h + (Visible(a[1..]) + Visible(b));
        (h + Visible(a[1..])) + Visible(b);
      }
      assert Visible(a) == h + Visible(a[1..]);
    } else {
      assert a + b == b;
    }
  }

  lemma {:induction false} VisibleOfSpaces(s: string)
    requires forall i :: 0 <= i < |s| ==> IsSpace(s[i])
    ensures Visible(s) == []
    decreases |s|
  {
    if s != [] {
      VisibleOfSpaces(s[1..]);
    }
  }

  /** Collapsing white space keeps every other character, in order. */
  lemma {:induction false} CollapseVisible(s: string)
    ensures Visible(CollapseSpace(s)) == Visible(s)
    decreases |s|
  {
    if s != [] {
      if IsSpace(s[0]) {
        var n := RunLength(s, IsSpace);
        CollapseVisible(s[n..]);
        assert s == s[..n] + s[n..];
        VisibleAppend(s[..n], s[n..]);
        VisibleOfSpaces(s[..n]);
        VisibleAppend([' '], CollapseSpace(s[n..]));
      } else {
        CollapseVisible(s[1..]);
        VisibleAppend([s[0]], CollapseSpace(s[1..]));
      }
    }
  }

  /** `s.strip()` removes white space only. */
  lemma StripVisible(s: string)
    ensures Visible(Strip(s)) == Visible(s)
  {
    var r := Strip(s);
    var k := TrimOffset(s, IsSpace);
    TrimSpec(s, IsSpace);
    var a, b := s[..k], s[k + |r|..];
    assert s == a + r + b;
    forall i | 0 <= i < |a| ensures IsSpace(a[i]) {
      assert a[i] == s[i];
    }
    forall i | 0 <= i < |b| ensures IsSpace(b[i]) {
      assert b[i] == s[k + |r| + i];
    }
    calc {
      Visible(s);
      { VisibleAppend(a + r, b); }
      Visible(a + r) + Visible(b);
      { VisibleAppend(a, r); }
      Visible(a) + Visible(r) + Visible(b);
      { VisibleOfSpaces(a); VisibleOfSpaces(b); }
      Visible(r);
    }
  }

  /** A string whose white space is single spaces already is its own collapse. */
  lemma {:induction false} CollapseSingleSpaces(s: string)
    requires SingleSpaced(s)
    ensures CollapseSpace(s) == s
    decreases |s|
  {
    if s != [] {
      assert forall i :: SpacePairAt(s[1..], i) ==> SpacePairAt(s, i + 1);
      CollapseSingleSpaces(s[1..]);
      if IsSpace(s[0]) {
        assert !SpacePairAt(s, 0);
        assert RunLength(s[1..], IsSpace) == 0;
        assert RunLength(s, IsSpace) == 1;
      }
    }
  }

  /** `_norm`: "" for a missing or empty text; otherwise the dashes unified, white-space runs
      collapsed to one space and the ends stripped. */
  function Norm(text: Option<string>): string {
    if text.None? || text.value == [] then ""
    else Strip(CollapseSpace(UnifyDashes(text.value)))
  }

  /** A normalised text is empty for a missing or empty input, holds no em or en dash, has no
      white space at its ends, and its white space is single spaces. */
  lemma NormShape(text: Option<string>)
    ensures text.None? || text.value == [] ==> Norm(text) == []
    ensures NoDash(Norm(text)) && Stripped(Norm(text)) && SingleSpaced(Norm(text))
  {
    if text.Some? && text.value != [] {
      var u := UnifyDashes(text.value);
      assert NoDash(u);
      CollapseNoDash(u);
      StripNoDash(CollapseSpace(u));
      TrimSpec(CollapseSpace(u), IsSpace);
      StripSingleSpaced(CollapseSpace(u));
    }
  }

  /** Having no dash and being single-spaced carry over to every slice. */
  lemma SliceKeeps(c: string, a: nat, b: nat)
    requires a <= b <= |c|
    ensures NoDash(c) ==> NoDash(c[a..b])
    ensures SingleSpaced(c) ==> SingleSpaced(c[a..b])
  {
    assert forall i :: SpacePairAt(c[a..b], i) ==> SpacePairAt(c, a + i);
  }

  /** Stripping brings in no dash. */
  lemma StripNoDash(c: string)
    requires NoDash(c)
    ensures NoDash(Strip(c))
  {
    var r := Strip(c);
    var k := TrimOffset(c, IsSpace);
    TrimSpec(c, IsSpace);
    SliceKeeps(c, k, k + |r|);
  }

  /** Stripping a single-spaced text leaves it single-spaced. */
  lemma StripSingleSpaced(c: string)
    requires SingleSpaced(c)
    ensures SingleSpaced(Strip(c))
  {
    var r := Strip(c);
    var k := TrimOffset(c, IsSpace);
    TrimSpec(c, IsSpace);
    SliceKeeps(c, k, k + |r|);
  }

  /** Normalising changes nothing but dashes and white space. */
  lemma NormVisible(text: string)
    ensures Visible(Norm(Some(text))) == Visible(UnifyDashes(text))
  {
    if text != [] {
      var u := UnifyDashes(text);
      StripVisible(CollapseSpace(u));
      CollapseVisible(u);
    }
  }

  /** Normalising a normalised text changes nothing. */
  lemma NormIdempotent(text: Option<string>)
    ensures Norm(Some(Norm(text))) == Norm(text)
  {
    var r := Norm(text);
    NormShape(text);
    if r != [] {
      assert UnifyDashes(r) == r;
      CollapseSingleSpaces(r);
      TrimUnchanged(r, IsSpace);
    }
  }

  /* ---- searches ---- */

  /** A successful regular-expression search: the text of the whole match and, when some
      capturing group took part, the text of the last one (`m.group(m.lastindex)`). */
  datatype Match = Match(whole: string, lastGroup: Option<string>)

  /** The group `_get_first` prefers. */
  function Preferred(m: Match): string {
    if m.lastGroup.Some? then m.lastGroup.value else m.whole
  }

  /** `_get_first`: no result without a match; otherwise the preferred group with only its
      surrounding white space removed. */
  function GetFirst(m: Option<Match>): (r: Option<string>)
    ensures r.None? <==> m.None?
    ensures r.Some? ==>
      && Stripped(r.value)
      && Visible(r.value) == Visible(Preferred(m.value))
      && exists k :: OccursAt(r.value, Preferred(m.value), k)
  {
    match m
    case None => None
    case Some(found) =>
      var g := Preferred(found);
      var s := Strip(g);
      TrimSpec(g, IsSpace);
      assert OccursAt(s, g, TrimOffset(g, IsSpace));
      StripVisible(g);
      Some(s)
  }

  /* ---- names ---- */

  predicate IsNameSep(c: char) { c == ',' || c == ';' }

  /** The characters `p.strip(" ,;\n\t")` removes. */
  predicate IsNameEdge(c: char) { c == ' ' || c == ',' || c == ';' || c == '\n' || c == '\t' }

  /** `re.split(r"[,;]\s*", s)`: the pieces between the commas and semicolons, with the white
      space right after each separator dropped. */
  function SplitAtSeparators(s: string): (r: seq<string>)
    ensures |r| >= 1
    ensures forall k :: 0 <= k < |r| ==> NoSep(r[k])
    decreases |s|
  {
    var n := RunLength(s, c => !IsNameSep(c));
    if n == |s| then [s]
    else
      var m := RunLength(s[n + 1..], IsSpace);
      [s[..n]] + SplitAtSeparators(s[n + 1 + m..])
  }

  predicate NoSep(s: string) {
    forall j :: 0 <= j < |s| ==> !IsNameSep(s[j])
  }

  /** What `_split_names` lets through: at least two characters, no comma or semicolon, and
      no space, separator, newline or tab at either end. */
  predicate IsName(n: string) {
    |n| >= 2 && !IsNameEdge(n[0]) && !IsNameEdge(n[|n| - 1]) && NoSep(n)
  }

  /** The comprehensions of `_split_names` over the pieces: blank pieces dropped, the rest
      trimmed of spaces, separators, newlines and tabs, and names shorter than two dropped. */
  function NamesOf(pieces: seq<string>): (r: seq<string>)
    ensures |r| <= |pieces|
    decreases |pieces|
  {
    if pieces == [] then []
    else
      var p := Trim(pieces[0], IsNameEdge);
      (if Strip(pieces[0]) != [] && |p| >= 2 then [p] else []) + NamesOf(pieces[1..])
  }

  lemma {:induction false} NamesOfAreNames(pieces: seq<string>)
    requires forall k :: 0 <= k < |pieces| ==> NoSep(pieces[k])
    ensures forall k :: 0 <= k < |NamesOf(pieces)| ==> IsName(NamesOf(pieces)[k])
    decreases |pieces|
  {
    if pieces != [] {
      NamesOfAreNames(pieces[1..]);
      TrimName(pieces[0]);
    }
  }

  lemma {:induction false} NamesOfComplete(pieces: seq<string>)
    ensures forall k :: 0 <= k < |pieces| && Strip(pieces[k]) != [] && |Trim(pieces[k], IsNameEdge)| >= 2 ==>
      Trim(pieces[k], IsNameEdge) in NamesOf(pieces)
    decreases |pieces|
  {
    if pieces != [] {
      NamesOfComplete(pieces[1..]);
      assert forall k :: 1 <= k < |pieces| ==> pieces[k] == pieces[1..][k - 1];
    }
  }

  /** A piece without separators trims to a name when it trims to two or more characters. */
  lemma TrimName(p: string)
    requires NoSep(p)
    ensures |Trim(p, IsNameEdge)| >= 2 ==> IsName(Trim(p, IsNameEdge))
  {
    var k := TrimOffset(p, IsNameEdge);
    var r := Trim(p, IsNameEdge);
    TrimSpec(p, IsNameEdge);
    assert forall j :: 0 <= j < |r| ==> r[j] == p[k + j];
  }

  /** `_split_names` */
  function SplitNames(blob: string): seq<string> {
    NamesOf(SplitAtSeparators(blob))
  }

  /** Every name `_split_names` returns is a name in the sense of `IsName`, and every piece of
      the blob that is not blank and trims to two or more characters is among them, trimmed. */
  lemma SplitNamesSpec(blob: string)
    ensures forall k :: 0 <= k < |SplitNames(blob)| ==> IsName(SplitNames(blob)[k])
    ensures var pieces := SplitAtSeparators(blob);
      forall k :: 0 <= k < |pieces| && Strip(pieces[k]) != [] && |Trim(pieces[k], IsNameEdge)| >= 2 ==>
        Trim(pieces[k], IsNameEdge) in SplitNames(blob)
  {
    NamesOfAreNames(SplitAtSeparators(blob));
    NamesOfComplete(SplitAtSeparators(blob));
  }

  /** `w.capitalize()`: the first character upper-cased, the rest lower-cased. */
  function Capitalize(w: string): (r: string)
    ensures |r| == |w|
  {
    if w == [] then [] else [ToUpper(w[0])] + Lower(w[1..])
  }

  /** A capitalised word has only its first letter upper-case, differs from the word only in
      letter case, and has its spaces where the word has them. */
  lemma CapitalizeSpec(w: string)
    ensures var r := Capitalize(w);
      && (forall i :: 0 <= i < |r| && IsLetter(r[i]) ==> (IsUpper(r[i]) <==> i == 0))
      && (forall i :: 0 <= i < |r| ==> (r[i] == ' ' <==> w[i] == ' '))
      && Lower(r) == Lower(w)
  {
    var r := Capitalize(w);
    if w != [] {
      assert r[0] == ToUpper(w[0]);
      assert forall i :: 1 <= i < |r| ==> r[i] == ToLower(w[i]);
      assert forall i :: 0 <= i < |r| ==> ToLower(r[i]) == ToLower(w[i]);
    }
  }

  /** `re.split(r"\s+", s)`: the pieces between maximal runs of white space, with an empty
      piece first or last when `s` starts or ends with white space. */
  function SplitSpaceRuns(s: string): (r: seq<string>)
    ensures |r| >= 1
    ensures forall k :: 0 <= k < |r| ==> forall j :: 0 <= j < |r[k]| ==> !IsSpace(r[k][j])
    decreases |s|
  {
    var n := RunLength(s, NotSpace);
    if n == |s| then [s]
    else
      var m := RunLength(s[n..], IsSpace);
      [s[..n]] + SplitSpaceRuns(s[n + m..])
  }

  function CapitalizeAll(ws: seq<string>): (r: seq<string>)
    ensures |r| == |ws|
    ensures forall k :: 0 <= k < |r| ==> r[k] == Capitalize(ws[k])
  {
    if ws == [] then [] else [Capitalize(ws[0])] + CapitalizeAll(ws[1..])
  }

  /** `" ".join(w.capitalize() for w in re.split(r"\s+", s))` */
  function CapitalizeWords(s: string): string {
    Join(CapitalizeAll(SplitSpaceRuns(s)), " ")
  }

  /** The letters of `r` are upper-case exactly at the start of a word: at the start of the
      text or right after a space. */
  predicate WordCapitalized(r: string) {
    forall i :: 0 <= i < |r| && IsLetter(r[i]) ==> (IsUpper(r[i]) <==> WordStart(r, i))
  }

  /** Index `i` starts a word of `r`: it is the first index or follows a space. */
  predicate WordStart(r: string, i: int) {
    i == 0 || (0 < i <= |r| && r[i - 1] == ' ')
  }

  lemma {:induction false} JoinCapitalized(ws: seq<string>)
    requires forall k :: 0 <= k < |ws| ==> WordCapitalized(ws[k])
    ensures WordCapitalized(Join(ws, " "))
    decreases |ws|
  {
    if |ws| > 1 {
      JoinCapitalized(ws[1..]);
      var w, t, r := ws[0], Join(ws[1..], " "), Join(ws, " ");
      assert r == w + " " + t;
      assert WordCapitalized(w) && WordCapitalized(t);
      forall i | 0 <= i < |r| && IsLetter(r[i])
        ensures IsUpper(r[i]) <==> WordStart(r, i)
      {
        if i < |w| {
          assert r[i] == w[i];
          assert IsUpper(w[i]) <==> WordStart(w, i);
          if i > 0 {
            assert r[i - 1] == w[i - 1];
          }
        } else if i > |w| {
          var j := i - |w| - 1;
          assert r[i] == t[j];
          assert IsUpper(t[j]) <==> WordStart(t, j);
          if j > 0 {
            assert r[i - 1] == t[j - 1];
          } else {
            assert r[i - 1] == ' ';
          }
        }
      }
    }
  }

  /** Capitalising words makes a letter upper-case exactly at the start of a word. */
  lemma CapitalizeWordsShape(s: string)
    ensures WordCapitalized(CapitalizeWords(s))
  {
    var pieces := SplitSpaceRuns(s);
    var ws := CapitalizeAll(pieces);
    forall k | 0 <= k < |ws| ensures WordCapitalized(ws[k]) {
      CapitalizeSpec(pieces[k]);
      assert forall i :: 0 <= i < |pieces[k]| ==> pieces[k][i] != ' ';
    }
    JoinCapitalized(ws);
  }

  /** `s.title()` over ASCII letters: a letter is upper-cased when the character before it is
      not a letter and lower-cased when it is. */
  function Title(s: string): (r: string)
    ensures |r| == |s|
    ensures Lower(r) == Lower(s)
  {
    var r := seq(|s|, i requires 0 <= i < |s| =>
      if i > 0 && IsLetter(s[i - 1]) then ToLower(s[i]) else ToUpper(s[i]));
    assert forall i :: 0 <= i < |s| ==> ToLower(r[i]) == ToLower(s[i]);
    r
  }

  /** A letter stands right before index `i` of `r`. */
  predicate LetterBefore(r: string, i: int) {
    0 < i <= |r| && IsLetter(r[i - 1])
  }

  /** The letters of `r` are upper-case exactly where no letter precedes them. */
  predicate TitleCased(r: string) {
    forall i :: 0 <= i < |r| && IsLetter(r[i]) ==> (IsUpper(r[i]) <==> !LetterBefore(r, i))
  }

  /** A letter of a title-cased text is upper-case exactly when no letter precedes it. */
  lemma TitleShape(s: string)
    ensures TitleCased(Title(s))
  {
    var r := Title(s);
    forall i | 0 <= i < |r| && IsLetter(r[i])
      ensures IsUpper(r[i]) <==> !LetterBefore(r, i)
    {
      if i > 0 {
        assert IsLetter(r[i - 1]) <==> IsLetter(s[i - 1]);
      }
    }
  }

  /** Title-casing "1st semester" upper-cases the `s` that follows the digit, so the result
      is not capitalised word by word. */
  lemma TitleOfOrdinal()
    ensures Title("1st semester")[1] == 'S'
    ensures !WordCapitalized(Title("1st semester"))
  {
    var r := Title("1st semester");
    assert IsLetter(r[1]) && IsUpper(r[1]) && r[0] != ' ';
  }

  /* ---- whole-word counts ---- */

  /** `\b` + `w` + `\b` matches at index `i` of `s`. */
  predicate WordAt(w: string, s: string, i: int) {
    && OccursAt(w, s, i)
    && (i == 0 || !IsWordChar(s[i - 1]))
    && (i + |w| == |s| || !IsWordChar(s[i + |w|]))
  }

  predicate IsWord(w: string) {
    |w| > 0 && forall k :: 0 <= k < |w| ==> IsWordChar(w[k])
  }

  /** The positions `re.finditer(r"\b" + w + r"\b", s)` reports from index `from` on: the
      search tries each index in turn and resumes after each match. */
  function WordMatches(w: string, s: string, from: nat): (r: seq<nat>)
    requires |w| > 0
    ensures forall k :: 0 <= k < |r| ==> from <= r[k] && WordAt(w, s, r[k])
    ensures IsWord(w) ==> forall i :: from <= i && WordAt(w, s, i) ==> i in r
    decreases |s| - from
  {
    if from + |w| > |s| then []
    else if WordAt(w, s, from) then
      var rest := WordMatches(w, s, from + |w|);
      forall i | IsWord(w) && from < i < from + |w| ensures !WordAt(w, s, i) {
        assert s[i - 1] == s[from..from + |w|][i - 1 - from];
      }
      [from] + rest
    else WordMatches(w, s, from + 1)
  }

  /** `len(re.findall(r"\b" + w + r"\b", s))` */
  function WholeWordCount(w: string, s: string): nat
    requires |w| > 0
  {
    |WordMatches(w, s, 0)|
  }

  /** The values a sequence holds. */
  function Values(r: seq<nat>): set<nat> {
    set i | i in r
  }

  /** Putting a value smaller than all the others in front of a sequence of distinct values
      keeps its values distinct. */
  lemma PrependDistinct(x: nat, rest: seq<nat>)
    requires forall k :: 0 <= k < |rest| ==> x < rest[k]
    requires |Values(rest)| == |rest|
    ensures |Values([x] + rest)| == 1 + |rest|
  {
    assert x !in Values(rest);
    assert Values([x] + rest) == Values(rest) + {x};
  }

  /** No position is reported twice: each match starts after the previous one. */
  lemma {:induction false} WordMatchesDistinct(w: string, s: string, from: nat)
    requires |w| > 0
    ensures |Values(WordMatches(w, s, from))| == |WordMatches(w, s, from)|
    decreases |s| - from
  {
    if from + |w| <= |s| {
      if WordAt(w, s, from) {
        var rest := WordMatches(w, s, from + |w|);
        assert WordMatches(w, s, from) == [from] + rest;
        WordMatchesDistinct(w, s, from + |w|);
        PrependDistinct(from, rest);
      } else {
        assert WordMatches(w, s, from) == WordMatches(w, s, from + 1);
        WordMatchesDistinct(w, s, from + 1);
      }
    }
  }

  /** `len(re.findall(r"\b" + w + r"\b", s))` counts every whole-word occurrence of a word
      once: matches of a word cannot overlap. */
  lemma WholeWordCountSpec(w: string, s: string)
    requires IsWord(w)
    ensures WholeWordCount(w, s) == |set i: nat | i <= |s| && WordAt(w, s, i)|
  {
    var r := WordMatches(w, s, 0);
    WordMatchesDistinct(w, s, 0);
    assert Values(r) == (set i: nat | i <= |s| && WordAt(w, s, i));
  }

  /* ---- the record ---- */

  /** Python truthiness of an optional string. */
  predicate Truthy(v: Option<string>) { v.Some? && v.value != [] }

  /** `[k for k, v in entries if v]` */
  function PresentKeys(entries: seq<(string, bool)>): (r: seq<string>)
    ensures forall k :: k in r <==> exists i :: 0 <= i < |entries| && entries[i] == (k, true)
    ensures Subsequence(r, Keys(entries))
    decreases |entries|
  {
    if entries == [] then []
    else
      var rest := PresentKeys(entries[1..]);
      assert Keys(entries) == [entries[0].0] + Keys(entries[1..]);
      assert forall i :: 1 <= i < |entries| ==> entries[i] == entries[1..][i - 1];
      if entries[0].1 then [entries[0].0] + rest else rest
  }

  function Keys(entries: seq<(string, bool)>): (r: seq<string>)
    ensures |r| == |entries| && forall i :: 0 <= i < |r| ==> r[i] == entries[i].0
  {
    seq(|entries|, i requires 0 <= i < |entries| => entries[i].0)
  }

  /** `a` is `b` with some elements left out. */
  predicate Subsequence(a: seq<string>, b: seq<string>)
    decreases |b|
  {
    a == [] || (b != [] && ((a[0] == b[0] && Subsequence(a[1..], b[1..])) || Subsequence(a, b[1..])))
  }

  /** The keys of the record's fields, in the order `_debug_present_fields` lists them. */
  const FieldNames: seq<string> := [
    "document_code", "course_code", "semester", "academic_year",
    "descriptive_title", "faculty", "reviewed_by", "review_date"]

  /** The searches of `extract_syllabus_review` whose regular expressions are not modelled. */
  datatype Pattern =
    | CourseCodeLabelled   // "course code:" and a code, on the normalised text
    | CourseCodeBare       // a bare code such as IT121, on the normalised text
    | SemesterNumbered     // "1st semester" and the like, on the lower-cased text
    | SemesterOrdinal      // "1st".."4th" before "semester", on the lower-cased text
    | DescriptiveTitle     // "descriptive title:" and the title, on the lower-cased text
    | FacultyList          // "faculty:" and the names, on the lower-cased text
    | ReviewedBy           // "reviewed by" and a name, on the normalised text
    | ReviewDate           // "date of review" and a date, on the normalised text

  /** The regular-expression machinery: a search per pattern, the document-code
      canonicalisation (which reads the lower-cased text) and the academic-year assembly
      (which reads the normalised text). */
  datatype Oracles = Oracles(
    search: (Pattern, string) -> Option<Match>,
    documentCode: string -> Option<string>,
    academicYear: string -> Option<string>)

  datatype SyllabusReview = SyllabusReview(
    documentCode: Option<string>,
    courseCode: Option<string>,
    semester: Option<string>,
    academicYear: Option<string>,
    descriptiveTitle: Option<string>,
    faculty: seq<string>,
    reviewedBy: Option<string>,
    reviewDate: Option<string>,
    indicatorsTable: bool,
    yesCount: nat,
    noCount: nat,
    presentFields: seq<string>)

  /** Which of the record's fields, in the order of `FieldNames`, hold a value: a truthy
      string, a semester, a non-empty faculty list. */
  function FieldsSet(r: SyllabusReview): (flags: seq<bool>)
    ensures |flags| == |FieldNames|
  {
    [ Truthy(r.documentCode), Truthy(r.courseCode), r.semester.Some?, Truthy(r.academicYear),
      Truthy(r.descriptiveTitle), r.faculty != [], Truthy(r.reviewedBy), Truthy(r.reviewDate)]
  }

  /** `course_code.replace(" ", "")` */
  function RemoveSpaces(s: string): (r: string)
    ensures ' ' !in r
    ensures |r| <= |s|
    decreases |s|
  {
    if s == [] then [] else (if s[0] == ' ' then [] else [s[0]]) + RemoveSpaces(s[1..])
  }

  /** The course code: the labelled one when it is non-empty, otherwise the bare one when
      there is one, with spaces removed from a non-empty result. */
  function CourseCode(norm: string, rx: Oracles): Option<string> {
    var labelled := GetFirst(rx.search(CourseCodeLabelled, norm));
    var found :=
      if Truthy(labelled) then labelled
      else match rx.search(CourseCodeBare, norm)
        case Some(m) => Some(m.whole)  // the pattern's one group spans the whole match
        case None => labelled;
    if Truthy(found) then Some(RemoveSpaces(found.value)) else found
  }

  /** The semester as found, before capitalisation: the numbered form first, the ordinal
      form when that gives nothing. */
  function SemesterFound(lower: string, rx: Oracles): Option<string> {
    var first := GetFirst(rx.search(SemesterNumbered, lower));
    if Truthy(first) then first else GetFirst(rx.search(SemesterOrdinal, lower))
  }

  /** The faculty names: the names listed after "faculty:", each capitalised word by word. */
  function Faculty(lower: string, rx: Oracles): seq<string> {
    var blob := GetFirst(rx.search(FacultyList, lower));
    if Truthy(blob) then NamesCapitalized(SplitNames(blob.value)) else []
  }

  /** The descriptive title, title-cased when non-empty. */
  function DescriptiveTitleOf(lower: string, rx: Oracles): Option<string> {
    var found := GetFirst(rx.search(DescriptiveTitle, lower));
    if Truthy(found) then Some(Title(found.value)) else found
  }

  /** Each name paired with the truthiness of its value. */
  function Tagged(names: seq<string>, truthy: seq<bool>): (r: seq<(string, bool)>)
    requires |names| == |truthy|
    ensures |r| == |names| && forall i :: 0 <= i < |r| ==> r[i] == (names[i], truthy[i])
  {
    seq(|names|, i requires 0 <= i < |names| => (names[i], truthy[i]))
  }

  /** `_debug_present_fields`: the keys of the eight fields whose values are truthy. */
  function PresentFields(documentCode: Option<string>, courseCode: Option<string>, semester: Option<string>,
                         academicYear: Option<string>, title: Option<string>, faculty: seq<string>,
                         reviewedBy: Option<string>, reviewDate: Option<string>): seq<string>
  {
    PresentKeys(Tagged(FieldNames, [
      Truthy(documentCode), Truthy(courseCode), Truthy(semester), Truthy(academicYear),
      Truthy(title), faculty != [], Truthy(reviewedBy), Truthy(reviewDate)]))
  }

  /** `extract_syllabus_review` */
  function ExtractSyllabusReview(text: Option<string>, rx: Oracles): SyllabusReview {
    var norm := Norm(text);
    var lower := Lower(norm);
    var documentCode := rx.documentCode(lower);
    var courseCode := CourseCode(norm, rx);
    var semester := SemesterFound(lower, rx);
    var academicYear := rx.academicYear(norm);
    var title := DescriptiveTitleOf(lower, rx);
    var faculty := Faculty(lower, rx);
    var reviewedBy := GetFirst(rx.search(ReviewedBy, norm));
    var reviewDate := GetFirst(rx.search(ReviewDate, norm));
    Assemble(lower, documentCode, courseCode, semester, academicYear, title, faculty, reviewedBy, reviewDate)
  }

  /** The returned dictionary, from the lower-cased text and the fields found in it. */
  function Assemble(lower: string, documentCode: Option<string>, courseCode: Option<string>,
                    semester: Option<string>, academicYear: Option<string>, title: Option<string>,
                    faculty: seq<string>, reviewedBy: Option<string>, reviewDate: Option<string>): SyllabusReview
  {
    SyllabusReview(
      documentCode, courseCode,
      if Truthy(semester) then Some(Title(semester.value)) else None,
      academicYear, title, faculty, reviewedBy, reviewDate,
      Occurs("indicators", lower) && Occurs("remarks", lower),
      WholeWordCount("yes", lower), WholeWordCount("no", lower),
      PresentFields(documentCode, courseCode, semester, academicYear, title, faculty, reviewedBy, reviewDate))
  }

  /** The record as evidently intended: the semester capitalised word by word, like the
      faculty names, instead of title-cased; every other field as `Assemble` has it. */
  function AssembleIntended(lower: string, documentCode: Option<string>, courseCode: Option<string>,
                            semester: Option<string>, academicYear: Option<string>, title: Option<string>,
                            faculty: seq<string>, reviewedBy: Option<string>, reviewDate: Option<string>): SyllabusReview
  {
    Assemble(lower, documentCode, courseCode, semester, academicYear, title, faculty, reviewedBy, reviewDate)
      .(semester := if Truthy(semester) then Some(CapitalizeWords(semester.value)) else None)
  }

  /** A key that no other entry carries is listed exactly when its own value is truthy. */
  lemma {:induction false} PresentKeyIff(entries: seq<(string, bool)>, i: nat)
    requires i < |entries|
    requires forall j :: 0 <= j < |entries| && j != i ==> entries[j].0 != entries[i].0
    ensures entries[i].0 in PresentKeys(entries) <==> entries[i].1
  {
    if entries[i].0 in PresentKeys(entries) {
      var j :| 0 <= j < |entries| && entries[j] == (entries[i].0, true);
    }
  }

  /** No two of the record's field names are the same. */
  lemma FieldNamesDistinct()
    ensures forall i, j :: 0 <= i < j < |FieldNames| ==> FieldNames[i] != FieldNames[j]
  {
    var n := FieldNames;
    assert |n[0]| == 13 && |n[1]| == 11 && |n[2]| == 8 && |n[3]| == 13;
    assert |n[4]| == 17 && |n[5]| == 7 && |n[6]| == 11 && |n[7]| == 11;
    assert n[0][0] != n[3][0] && n[1][0] != n[6][0] && n[1][0] != n[7][0] && n[6][6] != n[7][6];
  }

  /** The field names `_debug_present_fields` lists are those of the truthy fields, in the
      order of the record. */
  lemma PresentFieldsSpec(truthy: seq<bool>)
    requires |truthy| == |FieldNames|
    ensures var p := PresentKeys(Tagged(FieldNames, truthy));
      && Subsequence(p, FieldNames)
      && forall i :: 0 <= i < |FieldNames| ==> (FieldNames[i] in p <==> truthy[i])
  {
    var entries := Tagged(FieldNames, truthy);
    assert Keys(entries) == FieldNames;
    FieldNamesDistinct();
    forall i | 0 <= i < |entries| ensures entries[i].0 in PresentKeys(entries) <==> entries[i].1 {
      PresentKeyIff(entries, i);
    }
  }

  /** The record built from the fields found has a semester exactly when one was found,
      title-cased: the same text up to letter case, a letter upper-case exactly when no letter
      precedes it. Its YES/NO counts are the numbers of whole-word occurrences in the
      lower-cased text. */
  lemma AssembleSpec(lower: string, documentCode: Option<string>, courseCode: Option<string>,
                     semester: Option<string>, academicYear: Option<string>, title: Option<string>,
                     faculty: seq<string>, reviewedBy: Option<string>, reviewDate: Option<string>)
    ensures var r := Assemble(lower, documentCode, courseCode, semester, academicYear, title, faculty, reviewedBy, reviewDate);
      && (r.semester.Some? <==> Truthy(semester))
      && (r.semester.Some? ==> Lower(r.semester.value) == Lower(semester.value) && TitleCased(r.semester.value))
      && r.yesCount == |set i: nat | i <= |lower| && WordAt("yes", lower, i)|
      && r.noCount == |set i: nat | i <= |lower| && WordAt("no", lower, i)|
  {
    if Truthy(semester) {
      TitleShape(semester.value);
    }
    assert IsWordChar('y') && IsWordChar('e') && IsWordChar('s') && IsWordChar('n') && IsWordChar('o');
    WholeWordCountSpec("yes", lower);
    WholeWordCountSpec("no", lower);
  }

  /** The intended record differs from `Assemble`'s in the semester only, and capitalises it
      word by word. */
  lemma AssembleIntendedSpec(lower: string, documentCode: Option<string>, courseCode: Option<string>,
                             semester: Option<string>, academicYear: Option<string>, title: Option<string>,
                             faculty: seq<string>, reviewedBy: Option<string>, reviewDate: Option<string>)
    ensures var a, r := Assemble(lower, documentCode, courseCode, semester, academicYear, title, faculty, reviewedBy, reviewDate),
                        AssembleIntended(lower, documentCode, courseCode, semester, academicYear, title, faculty, reviewedBy, reviewDate);
      && r.(semester := a.semester) == a
      && (r.semester.Some? <==> Truthy(semester))
      && (r.semester.Some? ==> WordCapitalized(r.semester.value))
  {
    if Truthy(semester) {
      CapitalizeWordsShape(semester.value);
    }
  }

  /** For the semester "1st semester" that the numbered pattern finds, the record as written
      holds "1St Semester", which is not capitalised word by word, while the intended record
      holds a semester that is. */
  lemma AssembleOrdinalSemester(lower: string, documentCode: Option<string>, courseCode: Option<string>,
                                academicYear: Option<string>, title: Option<string>,
                                faculty: seq<string>, reviewedBy: Option<string>, reviewDate: Option<string>)
    ensures var a, r := Assemble(lower, documentCode, courseCode, Some("1st semester"), academicYear, title, faculty, reviewedBy, reviewDate),
                        AssembleIntended(lower, documentCode, courseCode, Some("1st semester"), academicYear, title, faculty, reviewedBy, reviewDate);
      && a.semester == Some(Title("1st semester")) && a.semester.value[1] == 'S'
      && !WordCapitalized(a.semester.value)
      && r.semester.Some? && WordCapitalized(r.semester.value)
  {
    TitleOfOrdinal();
    AssembleIntendedSpec(lower, documentCode, courseCode, Some("1st semester"), academicYear, title, faculty, reviewedBy, reviewDate);
  }

  /** `_debug_present_fields` names exactly the truthy fields of the record, in its order,
      the semester counting as found before it is capitalised. */
  lemma AssemblePresent(lower: string, documentCode: Option<string>, courseCode: Option<string>,
                        semester: Option<string>, academicYear: Option<string>, title: Option<string>,
                        faculty: seq<string>, reviewedBy: Option<string>, reviewDate: Option<string>)
    ensures var r := Assemble(lower, documentCode, courseCode, semester, academicYear, title, faculty, reviewedBy, reviewDate);
      && Subsequence(r.presentFields, FieldNames)
      && forall i :: 0 <= i < |FieldNames| ==> (FieldNames[i] in r.presentFields <==> FieldsSet(r)[i])
  {
    var r := Assemble(lower, documentCode, courseCode, semester, academicYear, title, faculty, reviewedBy, reviewDate);
    var truthy := [
      Truthy(documentCode), Truthy(courseCode), Truthy(semester), Truthy(academicYear),
      Truthy(title), faculty != [], Truthy(reviewedBy), Truthy(reviewDate)];
    assert truthy == FieldsSet(r);
    PresentFieldsSpec(truthy);
  }

  /** What `extract_syllabus_review` promises beyond its regular expressions: a course code
      without spaces, faculty names capitalised word by word, a title-cased semester, and what `AssembleSpec` and
      `AssemblePresent` state about the record. */
  lemma SyllabusReviewSpec(text: Option<string>, rx: Oracles)
    ensures var r, lower := ExtractSyllabusReview(text, rx), Lower(Norm(text));
      && (r.courseCode.Some? ==> ' ' !in r.courseCode.value)
      && (forall k :: 0 <= k < |r.faculty| ==> WordCapitalized(r.faculty[k]))
      && (r.semester.Some? <==> Truthy(SemesterFound(lower, rx)))
      && (r.semester.Some? ==> Lower(r.semester.value) == Lower(SemesterFound(lower, rx).value) && TitleCased(r.semester.value))
      && r.yesCount == |set i: nat | i <= |lower| && WordAt("yes", lower, i)|
      && r.noCount == |set i: nat | i <= |lower| && WordAt("no", lower, i)|
      && Subsequence(r.presentFields, FieldNames)
      && forall i :: 0 <= i < |FieldNames| ==> (FieldNames[i] in r.presentFields <==> FieldsSet(r)[i])
  {
    var norm := Norm(text);
    var lower := Lower(norm);
    var faculty := Faculty(lower, rx);
    forall k | 0 <= k < |faculty| ensures WordCapitalized(faculty[k]) {
      var blob := GetFirst(rx.search(FacultyList, lower));
      CapitalizeWordsShape(SplitNames(blob.value)[k]);
    }
    var documentCode, courseCode, semester := rx.documentCode(lower), CourseCode(norm, rx), SemesterFound(lower, rx);
    var academicYear, title := rx.academicYear(norm), DescriptiveTitleOf(lower, rx);
    var reviewedBy, reviewDate := GetFirst(rx.search(ReviewedBy, norm)), GetFirst(rx.search(ReviewDate, norm));
    AssembleSpec(lower, documentCode, courseCode, semester, academicYear, title, faculty, reviewedBy, reviewDate);
    AssemblePresent(lower, documentCode, courseCode, semester, academicYear, title, faculty, reviewedBy, reviewDate);
  }

  /** `[" ".join(...) for n in faculty]` */
  function NamesCapitalized(names: seq<string>): (r: seq<string>)
    ensures |r| == |names| && forall k :: 0 <= k < |r| ==> r[k] == CapitalizeWords(names[k])
  {
    if names == [] then [] else [CapitalizeWords(names[0])] + NamesCapitalized(names[1..])
  }
}
