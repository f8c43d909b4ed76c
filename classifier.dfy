/** The rule-based document classifier of backend/ml_classifier.py: substring features of the
    lowercased text, integer scores per category, the first highest-scoring category with a
    confidence of `min(score / 10, 1)`, the short-text guard and the choice between the
    trained model and the rules in `classify`, and the keyword extractor. */
module Classifier {
  import opened Common
  import opened Text
  import Ranking

  /** The document categories, as `CATEGORIES` lists them. */
  datatype Category =
    | ExamForm | AcknowledgementForm | Clearance | Receipt | GradeSheet | EnrollmentForm
    | IdApplication | CertificateRequest | LeaveForm | SyllabusReviewForm | Other

  /** `CATEGORIES`: its order is the key order of the `scores` dict and so decides ties. */
  const Categories: seq<Category> := [
    ExamForm, AcknowledgementForm, Clearance, Receipt, GradeSheet, EnrollmentForm,
    IdApplication, CertificateRequest, LeaveForm, SyllabusReviewForm, Other]

  function Name(c: Category): string {
    match c
    case ExamForm => "Exam Form"
    case AcknowledgementForm => "Acknowledgement Form"
    case Clearance => "Clearance"
    case Receipt => "Receipt"
    case GradeSheet => "Grade Sheet"
    case EnrollmentForm => "Enrollment Form"
    case IdApplication => "ID Application"
    case CertificateRequest => "Certificate Request"
    case LeaveForm => "Leave Form"
    case SyllabusReviewForm => "Syllabus Review Form"
    case Other => "Other"
  }

  /** The position of `c` in `Categories`. */
  function Position(c: Category): (i: nat)
    ensures i < |Categories| && Categories[i] == c
  {
    match c
    case ExamForm => 0
    case AcknowledgementForm => 1
    case Clearance => 2
    case Receipt => 3
    case GradeSheet => 4
    case EnrollmentForm => 5
    case IdApplication => 6
    case CertificateRequest => 7
    case LeaveForm => 8
    case SyllabusReviewForm => 9
    case Other => 10
  }

  /** Every category is listed, exactly once. */
  lemma CategoriesDistinct()
    ensures forall i :: 0 <= i < |Categories| ==> Position(Categories[i]) == i
    ensures forall c :: c in Categories
  {
    forall c ensures c in Categories {
      assert Categories[Position(c)] == c;
    }
  }

  /* ---- features ---- */

  /** The keys the scoring looks up in the features dict. `HasReviewedBy` and `HasPlanOfAction`
      are looked up but never produced by `extract_features`. */
  datatype Feature =
    | HasExam | HasAcknowledgement | HasClearance | HasReceipt | HasGrade | HasEnrollment
    | HasId | HasCertificate | HasLeave
    | HasSyllabusTitle | HasSyllabusIndicatorsTable | HasSyllabusDocumentCode
    | HasSyllabusTitleFuzzy | HasUstpAcad12 | HasDirectionsYes | HasUniversityHeader
    | HasCourseCode | HasFaculty
    | HasAmount | HasDate | HasSignature
    | HasReviewedBy | HasPlanOfAction

  /** The dict `extract_features` returns, one field per key it produces. */
  datatype Features = Features(
    exam: bool, acknowledgement: bool, clearance: bool, receipt: bool, grade: bool,
    enrollment: bool, id: bool, certificate: bool, leave: bool,
    syllabusTitle: bool, syllabusIndicatorsTable: bool, syllabusDocumentCode: bool,
    syllabusTitleFuzzy: bool, ustpAcad12: bool, directionsYes: bool, universityHeader: bool,
    courseCode: bool, faculty: bool,
    amount: bool, date: bool, signature: bool)

  /** `features.get(k)` taken as a condition: the value of a produced key, and false for the
      two keys `extract_features` never sets. */
  function Flag(f: Features, k: Feature): bool {
    match k
    case HasExam => f.exam
    case HasAcknowledgement => f.acknowledgement
    case HasClearance => f.clearance
    case HasReceipt => f.receipt
    case HasGrade => f.grade
    case HasEnrollment => f.enrollment
    case HasId => f.id
    case HasCertificate => f.certificate
    case HasLeave => f.leave
    case HasSyllabusTitle => f.syllabusTitle
    case HasSyllabusIndicatorsTable => f.syllabusIndicatorsTable
    case HasSyllabusDocumentCode => f.syllabusDocumentCode
    case HasSyllabusTitleFuzzy => f.syllabusTitleFuzzy
    case HasUstpAcad12 => f.ustpAcad12
    case HasDirectionsYes => f.directionsYes
    case HasUniversityHeader => f.universityHeader
    case HasCourseCode => f.courseCode
    case HasFaculty => f.faculty
    case HasAmount => f.amount
    case HasDate => f.date
    case HasSignature => f.signature
    case HasReviewedBy => false
    case HasPlanOfAction => false
  }

  /** The four regular-expression searches of `extract_features`, each as the truth of
      `re.search(pattern, s)`: the fuzzy syllabus-review title and the FM-USTP-ACAD-12 code
      are searched in the lowercased text, amounts and dates in the original text. */
  datatype Searches = Searches(
    titleFuzzy: string -> bool,
    ustpAcad12: string -> bool,
    amount: string -> bool,
    date: string -> bool)

  const ExamWords: seq<string> := ["exam", "examination", "test", "quiz"]
  const AcknowledgementWords: seq<string> := ["acknowledge", "acknowledgement", "received"]
  const ClearanceWords: seq<string> := ["clearance", "cleared", "no obligations"]
  const ReceiptWords: seq<string> := ["receipt", "payment", "amount", "paid"]
  const GradeWords: seq<string> := ["grade", "marks", "score", "gpa"]
  const EnrollmentWords: seq<string> := ["enroll", "enrollment", "registration"]
  const IdWords: seq<string> := ["id card", "identification", "student id"]
  const CertificateWords: seq<string> := ["certificate", "certification", "certify"]
  const LeaveWords: seq<string> := ["leave", "absence", "vacation"]

  /** `extract_features`: the keyword features hold when one of their words occurs in the
      lowercased text; the amount and date patterns are searched in the original text. */
  function ExtractFeatures(text: string, re: Searches): Features {
    var low := Lower(text);
    Features(
      exam := OccursAny(ExamWords, low),
      acknowledgement := OccursAny(AcknowledgementWords, low),
      clearance := OccursAny(ClearanceWords, low),
      receipt := OccursAny(ReceiptWords, low),
      grade := OccursAny(GradeWords, low),
      enrollment := OccursAny(EnrollmentWords, low),
      id := OccursAny(IdWords, low),
      certificate := OccursAny(CertificateWords, low),
      leave := OccursAny(LeaveWords, low),
      syllabusTitle := Occurs("syllabus review form", low),
      syllabusIndicatorsTable :=
        Occurs("indicators", low) && Occurs("remarks", low) && (Occurs("yes", low) && Occurs("no", low)),
      syllabusDocumentCode := Occurs("fm-ustp-acad-12", low) || Occurs("fm ustp acad 12", low),
      syllabusTitleFuzzy := re.titleFuzzy(low),
      ustpAcad12 := re.ustpAcad12(low),
      directionsYes := Occurs("directions", low) && Occurs("yes", low),
      universityHeader := Occurs("university of science and technology of southern philippines", low),
      courseCode := Occurs("course code", low),
      faculty := Occurs("faculty", low),
      amount := re.amount(text),
      date := re.date(text),
      signature := Occurs("signature", low) || Occurs("signed", low))
  }

  /* ---- scores ---- */

  /** `syllabus_signals`: the weights of the syllabus features that are set. The weights of
      `has_reviewed_by` and `has_plan_of_action` are looked up too, but those keys are never
      produced, so the signals are positive exactly when one of the nine produced syllabus
      features is set, and are at most 18 rather than 20. */
  function SyllabusSignals(f: Features): int
  {
    Points(f.syllabusTitle, 4)
    + Points(f.syllabusTitleFuzzy, 2)
    + Points(f.syllabusDocumentCode, 3)
    + Points(f.ustpAcad12, 3)
    + Points(f.syllabusIndicatorsTable, 2)
    + Points(Flag(f, HasReviewedBy), 1)
    + Points(Flag(f, HasPlanOfAction), 1)
    + Points(f.directionsYes, 1)
    + Points(f.universityHeader, 1)
    + Points(f.courseCode, 1)
    + Points(f.faculty, 1)
  }

  /** The signals are at most 18, and positive exactly when one of the nine produced
      syllabus features is set. */
  lemma SyllabusSignalsRange(f: Features)
    ensures 0 <= SyllabusSignals(f) <= 18
    ensures SyllabusSignals(f) > 0 <==>
      f.syllabusTitle || f.syllabusTitleFuzzy || f.syllabusDocumentCode || f.ustpAcad12
      || f.syllabusIndicatorsTable || f.directionsYes || f.universityHeader || f.courseCode
      || f.faculty
  {
  }

  /** The points one rule adds to a score: its weight when its cue is present. */
  function Points(cue: bool, weight: int): int {
    if cue then weight else 0
  }

  /** The second cue of each category's rules: words looked up in the lowercased text, for the
      Acknowledgement Form together with the signature feature and for the Receipt together
      with the amount feature. */
  datatype TextCues = TextCues(
    examinationForm: bool, signedAcknowledge: bool, clearedOrNoPending: bool,
    paidWithAmount: bool, transcriptOrReportCard: bool, enrollSubject: bool,
    studentIdOrIdApplication: bool, certificateRequest: bool, leaveApplicationOrAbsence: bool)

  /** The conditions of the second rule of each category, evaluated on `low`. */
  function FindTextCues(f: Features, low: string): TextCues {
    TextCues(
      examinationForm := Occurs("examination", low) && Occurs("form", low),
      signedAcknowledge := f.signature && Occurs("acknowledge", low),
      clearedOrNoPending := Occurs("cleared", low) || Occurs("no pending", low),
      paidWithAmount := f.amount && (Occurs("paid", low) || Occurs("payment", low)),
      transcriptOrReportCard := Occurs("transcript", low) || Occurs("report card", low),
      enrollSubject := Occurs("enroll", low) && Occurs("subject", low),
      studentIdOrIdApplication := Occurs("student id", low) || Occurs("id application", low),
      certificateRequest := Occurs("request", low) && Occurs("certificate", low),
      leaveApplicationOrAbsence := Occurs("leave application", low) || Occurs("absence", low))
  }

  /** The keyword lists overlap: the exam feature holds exactly when "exam", "test" or "quiz"
      occurs, since "examination" contains "exam". And the second cue of six categories can
      only hold together with their keyword feature, because the words it looks for contain
      one of the feature's words; for these categories the cue's bonus never comes alone. */
  lemma CuesNeedFeatures(text: string, re: Searches)
    ensures var low, f := Lower(text), ExtractFeatures(text, re);
      var t := FindTextCues(f, low);
      && (f.exam <==> Occurs("exam", low) || Occurs("test", low) || Occurs("quiz", low))
      && (t.examinationForm ==> f.exam)
      && (t.signedAcknowledge ==> f.acknowledgement)
      && (t.paidWithAmount ==> f.receipt)
      && (t.enrollSubject ==> f.enrollment)
      && (t.certificateRequest ==> f.certificate)
      && (t.leaveApplicationOrAbsence ==> f.leave)
  {
    var low := Lower(text);
    ExamWordsOccur(low);
    CueWordsListed(low);
  }

  /** `exam` occurs inside `examination`, so the exam list is matched exactly when one of
      `exam`, `test` and `quiz` occurs. */
  lemma ExamWordsOccur(low: string)
    ensures OccursAny(ExamWords, low) <==> Occurs("exam", low) || Occurs("test", low) || Occurs("quiz", low)
    ensures Occurs("examination", low) ==> Occurs("exam", low)
  {
    if Occurs("examination", low) {
      OccursWithin("exam", "examination", low, 0);
    }
    if Occurs("exam", low) {
      assert Occurs(ExamWords[0], low);
    } else if Occurs("test", low) {
      assert Occurs(ExamWords[2], low);
    } else if Occurs("quiz", low) {
      assert Occurs(ExamWords[3], low);
    }
  }

  /** The words of five second cues are, or contain, words of their category's list. */
  lemma CueWordsListed(low: string)
    ensures Occurs("acknowledge", low) ==> OccursAny(AcknowledgementWords, low)
    ensures Occurs("paid", low) || Occurs("payment", low) ==> OccursAny(ReceiptWords, low)
    ensures Occurs("enroll", low) ==> OccursAny(EnrollmentWords, low)
    ensures Occurs("certificate", low) ==> OccursAny(CertificateWords, low)
    ensures Occurs("leave application", low) || Occurs("absence", low) ==> OccursAny(LeaveWords, low)
  {
    if Occurs("acknowledge", low) {
      assert Occurs(AcknowledgementWords[0], low);
    }
    if Occurs("paid", low) {
      assert Occurs(ReceiptWords[3], low);
    } else if Occurs("payment", low) {
      assert Occurs(ReceiptWords[1], low);
    }
    if Occurs("enroll", low) {
      assert Occurs(EnrollmentWords[0], low);
    }
    if Occurs("certificate", low) {
      assert Occurs(CertificateWords[0], low);
    }
    if Occurs("leave application", low) {
      OccursWithin("leave", "leave application", low, 0);
      assert Occurs(LeaveWords[0], low);
    } else if Occurs("absence", low) {
      assert Occurs(LeaveWords[1], low);
    }
  }

  /** The score of each category before the syllabus adjustment: a weight for its feature
      plus a bonus for its second cue. The Syllabus Review Form and Other have no rules. */
  function BaseScore(c: Category, f: Features, t: TextCues): (n: int)
    ensures n >= 0
    ensures c == SyllabusReviewForm || c == Other ==> n == 0
  {
    match c
    case ExamForm => Points(f.exam, 3) + Points(t.examinationForm, 2)
    case AcknowledgementForm => Points(f.acknowledgement, 3) + Points(t.signedAcknowledge, 2)
    case Clearance => Points(f.clearance, 4) + Points(t.clearedOrNoPending, 2)
    case Receipt => Points(f.receipt, 3) + Points(t.paidWithAmount, 3)
    case GradeSheet => Points(f.grade, 3) + Points(t.transcriptOrReportCard, 2)
    case EnrollmentForm => Points(f.enrollment, 3) + Points(t.enrollSubject, 2)
    case IdApplication => Points(f.id, 4) + Points(t.studentIdOrIdApplication, 2)
    case CertificateRequest => Points(f.certificate, 3) + Points(t.certificateRequest, 2)
    case LeaveForm => Points(f.leave, 3) + Points(t.leaveApplicationOrAbsence, 2)
    case SyllabusReviewForm => 0
    case Other => 0
  }

  function Max(a: int, b: int): int { if a >= b then a else b }

  /* The `scores` dict has exactly the keys of `CATEGORIES`, inserted in that order, so it is
     modelled as the sequence of its values: the score of `c` is `scores[Position(c)]`. */

  /** The score dict after the eighteen keyword rules. */
  function BaseScores(f: Features, t: TextCues): (s: seq<int>)
    ensures |s| == |Categories|
  {
    [BaseScore(ExamForm, f, t), BaseScore(AcknowledgementForm, f, t), BaseScore(Clearance, f, t),
     BaseScore(Receipt, f, t), BaseScore(GradeSheet, f, t), BaseScore(EnrollmentForm, f, t),
     BaseScore(IdApplication, f, t), BaseScore(CertificateRequest, f, t), BaseScore(LeaveForm, f, t),
     BaseScore(SyllabusReviewForm, f, t), BaseScore(Other, f, t)]
  }

  /** The syllabus adjustment of a score dict: with positive signals, the signals are added to
      the Syllabus Review Form and a positive Grade Sheet score loses 3, down to no less than 0. */
  function Adjusted(s: seq<int>, signals: int): (r: seq<int>)
    requires |s| == |Categories|
    ensures |r| == |Categories|
  {
    if signals > 0 then
      var r := s[Position(SyllabusReviewForm) := s[Position(SyllabusReviewForm)] + signals];
      if r[Position(GradeSheet)] > 0 then r[Position(GradeSheet) := Max(0, r[Position(GradeSheet)] - 3)] else r
    else s
  }

  /** The final scores. */
  function Scores(f: Features, t: TextCues): (s: seq<int>)
    ensures |s| == |Categories|
  {
    Adjusted(BaseScores(f, t), SyllabusSignals(f))
  }

  /** The score of each category in the base dict is its base score. */
  lemma BaseScoresAt(f: Features, t: TextCues, c: Category)
    ensures BaseScores(f, t)[Position(c)] == BaseScore(c, f, t)
  {
    match c
    case ExamForm =>
    case AcknowledgementForm =>
    case Clearance =>
    case Receipt =>
    case GradeSheet =>
    case EnrollmentForm =>
    case IdApplication =>
    case CertificateRequest =>
    case LeaveForm =>
    case SyllabusReviewForm =>
    case Other =>
  }

  /** What the scoring promises: no score is negative and Other never scores; the Syllabus
      Review Form scores exactly the syllabus signals; the Grade Sheet keeps its base score
      when there are no signals and otherwise loses 3, down to no less than 0; every other
      category keeps its base score. */
  lemma ScoresSpec(f: Features, t: TextCues)
    ensures var s, signals := Scores(f, t), SyllabusSignals(f);
      && (forall i :: 0 <= i < |s| ==> s[i] >= 0)
      && s[Position(Other)] == 0
      && s[Position(SyllabusReviewForm)] == signals
      && (signals == 0 ==> s[Position(GradeSheet)] == BaseScore(GradeSheet, f, t))
      && (signals > 0 ==> s[Position(GradeSheet)] == Max(0, BaseScore(GradeSheet, f, t) - 3))
      && (forall c :: c != GradeSheet && c != SyllabusReviewForm ==> s[Position(c)] == BaseScore(c, f, t))
  {
    var base, s := BaseScores(f, t), Scores(f, t);
    forall c ensures base[Position(c)] == BaseScore(c, f, t) {
      BaseScoresAt(f, t, c);
    }
    forall i | 0 <= i < |s| ensures s[i] >= 0 {
      CategoriesDistinct();
      assert base[i] == BaseScore(Categories[i], f, t);
    }
  }

  /** The position of the first maximal element: `max(d, key=d.get)` keeps the first key whose
      value no later value exceeds. */
  function FirstMax(s: seq<int>): (k: nat)
    requires |s| > 0
    ensures k < |s|
    ensures forall i :: 0 <= i < |s| ==> s[i] <= s[k]
    ensures forall i :: 0 <= i < k ==> s[i] < s[k]
    decreases |s|
  {
    if |s| == 1 then 0
    else
      var k := FirstMax(s[..|s| - 1]);
      if s[|s| - 1] > s[k] then |s| - 1 else k
  }

  function MinReal(a: real, b: real): real { if a <= b then a else b }

  /** The verdict on a full score dict: ("Other", 0.5) when the highest score is 0, and
      otherwise the earliest category of highest score with `min(score / 10, 1)`. */
  function Decide(scores: seq<int>): (r: (Category, real))
    requires |scores| == |Categories|
    ensures var top := scores[FirstMax(scores)];
      && (forall c :: scores[Position(c)] <= top)
      && (top == 0 ==> r == (Other, 0.5))
      && (top != 0 ==>
        && scores[Position(r.0)] == top
        && (forall c :: Position(c) < Position(r.0) ==> scores[Position(c)] < top)
        && r.1 == MinReal(top as real / 10.0, 1.0))
  {
    var k := FirstMax(scores);
    if scores[k] == 0 then (Other, 0.5)
    else
      assert Position(Categories[k]) == k by { CategoriesDistinct(); }
      (Categories[k], MinReal(scores[k] as real / 10.0, 1.0))
  }

  /** `rule_based_classification` as a value. */
  function RuleBased(text: string, re: Searches): (Category, real) {
    var f := ExtractFeatures(text, re);
    Decide(Scores(f, FindTextCues(f, Lower(text))))
  }

  /** The rule-based verdict is ("Other", 0.5) exactly when every category scores 0. Otherwise
      the category has the highest score, which is positive, precedes every other category of
      that score in `CATEGORIES`, is not Other, and its confidence lies in (0, 1]. */
  lemma RuleBasedSpec(f: Features, t: TextCues)
    ensures var s := Scores(f, t); var r := Decide(s);
      && (r == (Other, 0.5) <==> forall c :: s[Position(c)] == 0)
      && ((exists c :: s[Position(c)] != 0) ==>
        && r.0 != Other
        && s[Position(r.0)] > 0
        && (forall c :: s[Position(c)] <= s[Position(r.0)])
        && (forall c :: Position(c) < Position(r.0) ==> s[Position(c)] < s[Position(r.0)])
        && 0.0 < r.1 <= 1.0
        && r.1 == MinReal(s[Position(r.0)] as real / 10.0, 1.0))
  {
    var s := Scores(f, t);
    ScoresSpec(f, t);
    var k := FirstMax(s);
    CategoriesDistinct();
    assert Position(Categories[k]) == k;
  }

  /* ---- keywords ---- */

  /** The stop words of the classifier's keyword extractor. */
  const StopWords: set<string> := {
    "this", "that", "with", "from", "have", "been", "will",
    "would", "could", "should", "about", "their", "there"}

  predicate IsLetterWord(w: string) {
    |w| >= 4 && forall i :: 0 <= i < |w| ==> IsLetter(w[i])
  }

  /** `re.findall(r'\b[a-zA-Z]{4,}\b', low)`: the maximal runs of word characters that consist
      of at least four ASCII letters. */
  function LetterWords(low: string): (ws: seq<string>)
    ensures forall i :: 0 <= i < |ws| ==> IsLetterWord(ws[i])
  {
    Ranking.Filter(Tokens(low, IsWordChar), IsLetterWord)
  }

  predicate NotStopWord(w: string) {
    w !in StopWords
  }

  /** The words that are counted: letter words of the lowercased text that are not stop words. */
  function CountedWords(text: string): seq<string> {
    Ranking.Filter(LetterWords(Lower(text)), NotStopWord)
  }

  /** `extract_keywords(text, top_n)` as a value. */
  function Keywords(text: string, topN: nat): seq<string> {
    Ranking.Ranked(CountedWords(text), topN)
  }

  /** Each keyword is a counted word: at least four ASCII letters, and not a stop word. */
  lemma KeywordsAreCountedWords(text: string, topN: nat)
    ensures forall i :: 0 <= i < |Keywords(text, topN)| ==>
      var w := Keywords(text, topN)[i];
      w in CountedWords(text) && IsLetterWord(w) && NotStopWord(w)
  {
    var ws, r := CountedWords(text), Keywords(text, topN);
    Ranking.RankedFromInput(ws, topN);
    forall i | 0 <= i < |r| ensures IsLetterWord(r[i]) && NotStopWord(r[i]) {
      assert r[i] in ws;
      var k :| 0 <= k < |ws| && ws[k] == r[i];
    }
  }

  /** The keywords are ranked by frequency among the counted words: at most `topN` of them,
      distinct, in non-increasing frequency, none left out more frequent than the last one
      kept, and words of equal frequency in the order of their first occurrence. */
  lemma KeywordsRanked(text: string, topN: nat)
    ensures Ranking.IsRanking(CountedWords(text), topN, Keywords(text, topN))
  {
    Ranking.RankedSpec(CountedWords(text), topN);
  }

  /* ---- the classifier object ---- */

  /** What `predict` and `predict_proba` give on `[text]`: the first label and the first row of
      probabilities. */
  datatype Prediction = Prediction(predicted: string, probabilities: seq<real>)

  /** A trained pipeline, as the function from a text to its prediction, or to the exception
      `predict` or `predict_proba` raises. */
  type Pipeline = string -> Result<Prediction, string>

  datatype Method = InsufficientText | MlModel | RuleBasedFallback | RuleBasedErrorFallback | RuleBasedOnly

  function MethodName(m: Method): string {
    match m
    case InsufficientText => "insufficient_text"
    case MlModel => "ml_model"
    case RuleBasedFallback => "rule_based_fallback"
    case RuleBasedErrorFallback => "rule_based_error_fallback"
    case RuleBasedOnly => "rule_based"
  }

  datatype Classification = Classification(
    documentType: string, confidence: real, keywords: seq<string>, methodUsed: Method)

  /** `max(probabilities)`, or None where Python raises on an empty sequence. */
  function MaxProbability(ps: seq<real>): (m: Option<real>)
    ensures m.None? <==> ps == []
    ensures m.Some? ==> m.value in ps && forall i :: 0 <= i < |ps| ==> ps[i] <= m.value
    decreases |ps|
  {
    if ps == [] then None
    else
      var rest := MaxProbability(ps[1..]);
      if rest.None? || ps[0] >= rest.value then Some(ps[0]) else rest
  }

  /** The label, confidence and method of `classify` for a text that is long enough: the
      model's prediction and its highest probability when the model answers with at least the
      threshold, and the rules' verdict otherwise. */
  function Label(model: Option<Pipeline>, threshold: real, text: string, verdict: (Category, real)): (string, real, Method) {
    match model
    case None => (Name(verdict.0), verdict.1, RuleBasedOnly)
    case Some(predict) =>
      match predict(text)
      case Err(_) => (Name(verdict.0), verdict.1, RuleBasedErrorFallback)
      case Ok(p) =>
        match MaxProbability(p.probabilities)
        case None => (Name(verdict.0), verdict.1, RuleBasedErrorFallback)
        case Some(confidence) =>
          if confidence < threshold then (Name(verdict.0), verdict.1, RuleBasedFallback)
          else (p.predicted, confidence, MlModel)
  }

  /** `classify` as a value, given what the rules decide on the text and the keywords it
      extracts: the result for a classifier with model `model` and confidence threshold
      `threshold`. Short texts are refused; without a model, or when the model fails or is
      not confident enough, the rules decide; otherwise the model's label is kept. */
  function ClassifyFrom(model: Option<Pipeline>, threshold: real, text: string,
                        verdict: (Category, real), keywords: seq<string>): (r: Classification)
    ensures r.methodUsed == InsufficientText <==> |Strip(text)| < 10
    ensures r.methodUsed == InsufficientText ==> r == Classification("Other", 0.0, [], InsufficientText)
    ensures r.methodUsed != InsufficientText ==> r.keywords == keywords
    ensures r.methodUsed in {RuleBasedFallback, RuleBasedErrorFallback, RuleBasedOnly} ==>
      r.documentType == Name(verdict.0) && r.confidence == verdict.1
    ensures r.methodUsed == RuleBasedOnly <==> model.None? && |Strip(text)| >= 10
    ensures r.methodUsed == MlModel ==>
      model.Some? && model.value(text).Ok? && r.documentType == model.value(text).value.predicted
      && MaxProbability(model.value(text).value.probabilities) == Some(r.confidence)
      && r.confidence >= threshold
    ensures r.methodUsed == RuleBasedFallback <==>
      && |Strip(text)| >= 10 && model.Some? && model.value(text).Ok?
      && var m := MaxProbability(model.value(text).value.probabilities); m.Some? && m.value < threshold
    ensures r.methodUsed == RuleBasedErrorFallback <==>
      && |Strip(text)| >= 10 && model.Some?
      && (model.value(text).Err? || model.value(text).value.probabilities == [])
  {
    if |Strip(text)| < 10 then Classification("Other", 0.0, [], InsufficientText)
    else
      var (documentType, confidence, methodUsed) := Label(model, threshold, text, verdict);
      Classification(documentType, confidence, keywords, methodUsed)
  }

  /** `classify` as a value: the rules' verdict is `RuleBased(text, re)` and the keywords are
      the five most frequent counted words. */
  function ClassifyResult(model: Option<Pipeline>, threshold: real, text: string, re: Searches): Classification {
    ClassifyFrom(model, threshold, text, RuleBased(text, re), Keywords(text, 5))
  }

  /** `DocumentClassifier`: the trained model, if one was loaded, and the confidence below
      which the rules are used instead of the model. */
  class DocumentClassifier {
    var model: Option<Pipeline>
    var confidenceThreshold: real

    /** `__init__`: `stored` is the model file, None when it does not exist, Err when loading
        it fails; `threshold` is the configured confidence threshold. */
    constructor (stored: Option<Result<Pipeline, string>>, threshold: real)
      ensures model == (if stored.Some? && stored.value.Ok? then Some(stored.value.value) else None)
      ensures confidenceThreshold == threshold
    {
      match stored {
        case None => model := None;
        case Some(Err(_)) => model := None;
        case Some(Ok(p)) => model := Some(p);
      }
      confidenceThreshold := threshold;
    }

    /** `rule_based_classification`: extracts the features, looks up the second cues, scores
        the categories step by step and decides. */
    method RuleBasedClassification(text: string, re: Searches) returns (category: Category, confidence: real)
      ensures (category, confidence) == RuleBased(text, re)
    {
      var f := ExtractFeatures(text, re);
      var cues := FindTextCues(f, Lower(text));
      var scores := ApplyRules(f, cues);
      scores := ApplySyllabusSignals(f, scores);
      category, confidence := Decide(scores).0, Decide(scores).1;
    }

    /** The eighteen keyword rules of `rule_based_classification`, each adding its weight to
        the running score of its category when its cue holds; the dict is assembled in the
        order of `CATEGORIES`. */
    static method ApplyRules(f: Features, t: TextCues) returns (scores: seq<int>)
      ensures scores == BaseScores(f, t)
    {
      var exam, acknowledgement, clearance, receipt, grade, enrollment := 0, 0, 0, 0, 0, 0;
      var id, certificate, leave, syllabus, other := 0, 0, 0, 0, 0;
      exam := exam + Points(f.exam, 3);
      exam := exam + Points(t.examinationForm, 2);
      acknowledgement := acknowledgement + Points(f.acknowledgement, 3);
      acknowledgement := acknowledgement + Points(t.signedAcknowledge, 2);
      clearance := clearance + Points(f.clearance, 4);
      clearance := clearance + Points(t.clearedOrNoPending, 2);
      receipt := receipt + Points(f.receipt, 3);
      receipt := receipt + Points(t.paidWithAmount, 3);
      grade := grade + Points(f.grade, 3);
      grade := grade + Points(t.transcriptOrReportCard, 2);
      enrollment := enrollment + Points(f.enrollment, 3);
      enrollment := enrollment + Points(t.enrollSubject, 2);
      id := id + Points(f.id, 4);
      id := id + Points(t.studentIdOrIdApplication, 2);
      certificate := certificate + Points(f.certificate, 3);
      certificate := certificate + Points(t.certificateRequest, 2);
      leave := leave + Points(f.leave, 3);
      leave := leave + Points(t.leaveApplicationOrAbsence, 2);
      scores := [exam, acknowledgement, clearance, receipt, grade, enrollment, id, certificate, leave, syllabus, other];
    }

    /** The syllabus step of `rule_based_classification`: counts the syllabus signals and
        applies them to the score dict. */
    static method ApplySyllabusSignals(f: Features, base: seq<int>) returns (scores: seq<int>)
      requires |base| == |Categories|
      ensures scores == Adjusted(base, SyllabusSignals(f))
    {
      var signals := 0;
      signals := signals + Points(f.syllabusTitle, 4);
      signals := signals + Points(f.syllabusTitleFuzzy, 2);
      signals := signals + Points(f.syllabusDocumentCode, 3);
      signals := signals + Points(f.ustpAcad12, 3);
      signals := signals + Points(f.syllabusIndicatorsTable, 2);
      signals := signals + Points(Flag(f, HasReviewedBy), 1);
      signals := signals + Points(Flag(f, HasPlanOfAction), 1);
      signals := signals + Points(f.directionsYes, 1);
      signals := signals + Points(f.universityHeader, 1);
      signals := signals + Points(f.courseCode, 1);
      signals := signals + Points(f.faculty, 1);
      scores := base;
      if signals > 0 {
        scores := scores[Position(SyllabusReviewForm) := scores[Position(SyllabusReviewForm)] + signals];
        if scores[Position(GradeSheet)] > 0 {
          scores := scores[Position(GradeSheet) := Max(0, scores[Position(GradeSheet)] - 3)];
        }
      }
    }

    /** `extract_keywords`: counts the non-stop letter words in a dict, sorts the counted
        words by descending count (stably) and keeps the first `topN`. */
    method ExtractKeywords(text: string, topN: nat) returns (keywords: seq<string>)
      ensures keywords == Keywords(text, topN)
    {
      var words := LetterWords(Lower(text));
      var keys, freq := Ranking.CountKept(words, NotStopWord);
      Ranking.TopItemsOfCounts(CountedWords(text), keys, freq, topN);
      var sortedWords := Ranking.SortByCount(Ranking.Items(keys, freq));
      var top := if topN < |sortedWords| then sortedWords[..topN] else sortedWords;
      keywords := seq(|top|, i requires 0 <= i < |top| => top[i].0);
    }

    /** `classify`: refuses short texts, labels the others and adds their keywords. */
    method Classify(text: string, re: Searches) returns (r: Classification)
      ensures r == ClassifyResult(model, confidenceThreshold, text, re)
    {
      if |Strip(text)| < 10 {
        return Classification("Other", 0.0, [], InsufficientText);
      }
      var documentType, confidence, methodUsed := Predict(text, re);
      var keywords := ExtractKeywords(text, 5);
      r := Classification(documentType, confidence, keywords, methodUsed);
    }

    /** The labelling part of `classify`: asks the model when there is one, and falls back to
        the rules when there is none, when it fails or when its confidence is below the
        threshold. */
    method Predict(text: string, re: Searches) returns (documentType: string, confidence: real, methodUsed: Method)
      ensures (documentType, confidence, methodUsed) == Label(model, confidenceThreshold, text, RuleBased(text, re))
    {
      var category: Category;
      if model.Some? {
        match model.value(text) {
          case Err(_) =>
            category, confidence := RuleBasedClassification(text, re);
            documentType, methodUsed := Name(category), RuleBasedErrorFallback;
          case Ok(p) =>
            var m := MaxProbability(p.probabilities);
            if m.None? {
              category, confidence := RuleBasedClassification(text, re);
              documentType, methodUsed := Name(category), RuleBasedErrorFallback;
            } else if m.value < confidenceThreshold {
              category, confidence := RuleBasedClassification(text, re);
              documentType, methodUsed := Name(category), RuleBasedFallback;
            } else {
              documentType, confidence, methodUsed := p.predicted, m.value, MlModel;
            }
        }
      } else {
        category, confidence := RuleBasedClassification(text, re);
        documentType, methodUsed := Name(category), RuleBasedOnly;
      }
    }
  }
}
