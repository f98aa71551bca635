/**
 * The submission service of `services/formService.js` (CommonJS tree) and
 * `src/services/formService.ts` (TypeScript tree): the guard against repeated
 * submissions, the `submitForm` pipeline (validate, guard, sanitise, append
 * a record, delete the converted draft) and the paged listing. The
 * submissions collection is a sequence of records in insertion order; time
 * is a number of milliseconds passed in as `now`.
 */
module FormService {
  import opened Wrappers
  import opened Errors
  import opened JsValues
  import JsStrings
  import Sanitize
  import FV = FormValidation
  import Config
  import Drafts

  /** The guard looks back five minutes. */
  const WindowMs: int := 5 * 60 * 1000
  /** The least time between two attempts of one session. */
  const MinGapMs: int := 30000
  /** A session with this many records in the window is refused. */
  const MaxSessionRecords: nat := 3
  /** An address with this many records in the window is refused. */
  const MaxIpRecords: nat := 10

  const PleaseWait := "Please wait before submitting again"
  const TooManyAttempts := "Too many submission attempts. Please wait 5 minutes before trying again"
  const TooManyFromIp := "Too many submissions from this IP address"
  const SubmissionFailed := "Form submission failed"

  /** What the route passes along about the request. */
  datatype RequestMetadata = RequestMetadata(ipAddress: Option<string>, userAgent: Option<string>)

  /** The `metadata` a record carries: the request's, plus version, source and the draft flag. */
  datatype Metadata = Metadata(
    ipAddress: Option<string>, userAgent: Option<string>, version: string, source: string, convertedFromDraft: bool)

  /** One stored submission. */
  datatype Submission = Submission(
    formId: Value,
    questions: seq<Value>,
    answers: Value,
    userEmail: Value,
    sessionId: Value,
    submittedAt: int,
    isDraft: bool,
    draftSessionId: Value,
    submissionAttempts: int,
    lastSubmissionAttempt: int,
    metadata: Metadata)

  // ---------------------------------------------------------------------------
  // The guard's view of the collection
  // ---------------------------------------------------------------------------

  /** `lastSubmissionAttempt >= now - 5 minutes`. */
  predicate InWindow(r: Submission, now: int) {
    r.lastSubmissionAttempt >= now - WindowMs
  }

  /** The records the session query finds; the query casts the session id to a string as the schema does. */
  predicate OfSession(r: Submission, sessionId: Value, now: int) {
    r.sessionId == SchemaString(sessionId) && InWindow(r, now)
  }

  /** The records the address query counts. */
  predicate OfAddress(r: Submission, ip: string, now: int) {
    r.metadata.ipAddress == Some(ip) && InWindow(r, now)
  }

  /** How many records the session query finds. */
  function SessionCount(rs: seq<Submission>, sessionId: Value, now: int): (n: nat)
    ensures n <= |rs|
    ensures n == 0 <==> forall i :: 0 <= i < |rs| ==> !OfSession(rs[i], sessionId, now)
  {
    if |rs| == 0 then 0
    else SessionCount(rs[..|rs| - 1], sessionId, now) + (if OfSession(rs[|rs| - 1], sessionId, now) then 1 else 0)
  }

  /** How many records the address query counts. */
  function AddressCount(rs: seq<Submission>, ip: string, now: int): (n: nat)
    ensures n <= |rs|
  {
    if |rs| == 0 then 0
    else AddressCount(rs[..|rs| - 1], ip, now) + (if OfAddress(rs[|rs| - 1], ip, now) then 1 else 0)
  }

  /**
   * The first record of the session query sorted newest first: a record of
   * the session in the window with the greatest `lastSubmissionAttempt`
   * (among equals the earliest stored, a choice the store leaves open).
   */
  function Newest(rs: seq<Submission>, sessionId: Value, now: int): (r: Option<nat>)
    ensures r.Some? ==> r.value < |rs|
  {
    if |rs| == 0 then None
    else
      var before := Newest(rs[..|rs| - 1], sessionId, now);
      var last := rs[|rs| - 1];
      if OfSession(last, sessionId, now) && (before.None? || last.lastSubmissionAttempt > rs[before.value].lastSubmissionAttempt)
      then Some(|rs| - 1)
      else before
  }

  /**
   * `Newest` finds a record exactly when the session has one in the window,
   * and the one it finds is of the session, in the window, and at least as
   * recent as every other.
   */
  lemma {:induction false} NewestIsNewest(rs: seq<Submission>, sessionId: Value, now: int)
    ensures Newest(rs, sessionId, now).None? <==> forall i :: 0 <= i < |rs| ==> !OfSession(rs[i], sessionId, now)
    ensures Newest(rs, sessionId, now).Some? ==> OfSession(rs[Newest(rs, sessionId, now).value], sessionId, now)
    ensures Newest(rs, sessionId, now).Some? ==> forall i :: 0 <= i < |rs| && OfSession(rs[i], sessionId, now) ==>
      rs[i].lastSubmissionAttempt <= rs[Newest(rs, sessionId, now).value].lastSubmissionAttempt
  {
    if |rs| > 0 {
      var n := |rs| - 1;
      NewestIsNewest(rs[..n], sessionId, now);
      assert forall i :: 0 <= i < n ==> rs[..n][i] == rs[i];
    }
  }

  /** What the session part of the guard decides. */
  datatype SessionVerdict = NoRecent | TooSoon | TooMany | BumpNewest(index: nat)

  /** `checkSubmissionProtection`'s session check, before it writes anything. */
  function SessionVerdictOf(rs: seq<Submission>, sessionId: Value, now: int): (v: SessionVerdict)
    ensures v.BumpNewest? ==> v.index < |rs|
  {
    match Newest(rs, sessionId, now)
    case None => NoRecent
    case Some(i) =>
      if now - rs[i].lastSubmissionAttempt < MinGapMs then TooSoon
      else if SessionCount(rs, sessionId, now) >= MaxSessionRecords then TooMany
      else BumpNewest(i)
  }

  /** The `$inc`/`$set` applied to the newest record. */
  function Bumped(r: Submission, now: int): Submission {
    r.(submissionAttempts := r.submissionAttempts + 1, lastSubmissionAttempt := now)
  }

  /** The address check: only for a truthy address, and only at ten records or more. */
  predicate AddressRefused(rs: seq<Submission>, ip: Option<string>, now: int) {
    ip.Some? && ip.value != "" && AddressCount(rs, ip.value, now) >= MaxIpRecords
  }

  /** The whole guard: its outcome and the collection it leaves behind. */
  function GuardSpec(rs: seq<Submission>, sessionId: Value, ip: Option<string>, now: int): (Outcome<HttpError>, seq<Submission>) {
    match SessionVerdictOf(rs, sessionId, now)
    case TooSoon => (Fail(TooManyRequests(PleaseWait)), rs)
    case TooMany => (Fail(TooManyRequests(TooManyAttempts)), rs)
    case NoRecent => (if AddressRefused(rs, ip, now) then Fail(TooManyRequests(TooManyFromIp)) else Pass, rs)
    case BumpNewest(i) =>
      var after := rs[i := Bumped(rs[i], now)];
      (if AddressRefused(after, ip, now) then Fail(TooManyRequests(TooManyFromIp)) else Pass, after)
  }

  /** The collection the guard leaves: the newest record bumped when the session check passes with records, else as it was. */
  function GuardState(rs: seq<Submission>, sessionId: Value, now: int): seq<Submission> {
    match SessionVerdictOf(rs, sessionId, now)
    case BumpNewest(i) => rs[i := Bumped(rs[i], now)]
    case _ => rs
  }

  /**
   * What the guard writes does not depend on the address check: a refusal
   * for the address comes after the bump and leaves it in place. Only the
   * newest record of the session changes, and only when the session check
   * passes with records in the window.
   */
  lemma GuardWritesOnlyTheBump(rs: seq<Submission>, sessionId: Value, ip: Option<string>, now: int)
    ensures GuardSpec(rs, sessionId, ip, now).1 == GuardState(rs, sessionId, now)
    ensures |GuardState(rs, sessionId, now)| == |rs|
    ensures SessionVerdictOf(rs, sessionId, now).BumpNewest? ==>
      var i := SessionVerdictOf(rs, sessionId, now).index;
      && GuardState(rs, sessionId, now)[i].submissionAttempts == rs[i].submissionAttempts + 1
      && GuardState(rs, sessionId, now)[i].lastSubmissionAttempt == now
      && forall j :: 0 <= j < |rs| && j != i ==> GuardState(rs, sessionId, now)[j] == rs[j]
    ensures !SessionVerdictOf(rs, sessionId, now).BumpNewest? ==> GuardState(rs, sessionId, now) == rs
  {
  }

  /**
   * The session check: a newest attempt less than 30 000 ms ago refuses with
   * the wait message (exactly 30 000 ms passes); otherwise three or more
   * records in the window refuse with the too-many message.
   */
  lemma SessionCheckThresholds(rs: seq<Submission>, sessionId: Value, ip: Option<string>, now: int)
    requires exists i :: 0 <= i < |rs| && OfSession(rs[i], sessionId, now)
    ensures Newest(rs, sessionId, now).Some?
    ensures var i := Newest(rs, sessionId, now).value;
      && (GuardSpec(rs, sessionId, ip, now).0 == Fail(TooManyRequests(PleaseWait)) <==>
            now - rs[i].lastSubmissionAttempt < MinGapMs)
      && (GuardSpec(rs, sessionId, ip, now).0 == Fail(TooManyRequests(TooManyAttempts)) <==>
            now - rs[i].lastSubmissionAttempt >= MinGapMs && SessionCount(rs, sessionId, now) >= MaxSessionRecords)
  {
    NewestIsNewest(rs, sessionId, now);
  }

  /** A session with no record in the window is never refused for the session, and nothing is written. */
  lemma NoRecentNoWrite(rs: seq<Submission>, sessionId: Value, ip: Option<string>, now: int)
    requires forall i :: 0 <= i < |rs| ==> !OfSession(rs[i], sessionId, now)
    ensures GuardSpec(rs, sessionId, ip, now) ==
      (if AddressRefused(rs, ip, now) then Fail(TooManyRequests(TooManyFromIp)) else Pass, rs)
  {
    NewestIsNewest(rs, sessionId, now);
  }

  /** Replacing a record by one the address query treats alike keeps the address count. */
  lemma {:induction false} AddressCountUpdate(rs: seq<Submission>, i: nat, r: Submission, ip: string, now: int)
    requires i < |rs| && (OfAddress(rs[i], ip, now) <==> OfAddress(r, ip, now))
    ensures AddressCount(rs[i := r], ip, now) == AddressCount(rs, ip, now)
    decreases |rs|
  {
    var n := |rs| - 1;
    if i < n {
      assert rs[i := r][..n] == rs[..n][i := r];
      AddressCountUpdate(rs[..n], i, r, ip, now);
    } else {
      assert rs[i := r][..n] == rs[..n];
    }
  }

  /**
   * The bump keeps the bumped record in the window, so the address check
   * after it sees the same count as before it.
   */
  lemma BumpKeepsAddressCount(rs: seq<Submission>, sessionId: Value, ip: string, now: int)
    ensures AddressCount(GuardState(rs, sessionId, now), ip, now) == AddressCount(rs, ip, now)
  {
    match SessionVerdictOf(rs, sessionId, now)
    case BumpNewest(i) =>
      NewestIsNewest(rs, sessionId, now);
      AddressCountUpdate(rs, i, Bumped(rs[i], now), ip, now);
    case _ =>
  }

  /** Two session ids the schema casts alike find the same records. */
  lemma {:induction false} SameKeySameSession(rs: seq<Submission>, a: Value, b: Value, now: int)
    requires SchemaString(a) == SchemaString(b)
    ensures Newest(rs, a, now) == Newest(rs, b, now)
    ensures SessionCount(rs, a, now) == SessionCount(rs, b, now)
    decreases |rs|
  {
    if |rs| > 0 {
      SameKeySameSession(rs[..|rs| - 1], a, b, now);
    }
  }

  /**
   * A numeric session id is its decimal string to the store: the guard
   * counts the records stored under `"1234567890"` against a retry with the
   * number 1234567890, and the clean-up deletes that draft.
   */
  lemma NumericSessionIdIsItsString(rs: seq<Submission>, ds: map<string, Drafts.Draft>, n: nat,
                                    ip: Option<string>, now: int, fails: bool)
    ensures GuardSpec(rs, Num(Finite(n)), ip, now) == GuardSpec(rs, Str(JsStrings.NatToString(n)), ip, now)
    ensures CleanupSpec(ds, Num(Finite(n)), fails) == CleanupSpec(ds, Str(JsStrings.NatToString(n)), fails)
  {
    SameKeySameSession(rs, Num(Finite(n)), Str(JsStrings.NatToString(n)), now);
  }

  /** The session count of a concatenation is the sum of the counts. */
  lemma {:induction false} SessionCountConcat(rs: seq<Submission>, xs: seq<Submission>, sessionId: Value, now: int)
    ensures SessionCount(rs + xs, sessionId, now) == SessionCount(rs, sessionId, now) + SessionCount(xs, sessionId, now)
    decreases |xs|
  {
    if |xs| > 0 {
      var n := |xs| - 1;
      assert (rs + xs)[..|rs + xs| - 1] == rs + xs[..n];
      SessionCountConcat(rs, xs[..n], sessionId, now);
    } else {
      assert rs + xs == rs;
    }
  }

  /** Behind records of other sessions, the newest of the session is found in the appended part. */
  lemma {:induction false} NewestBehindOthers(rs: seq<Submission>, xs: seq<Submission>, sessionId: Value, now: int)
    requires forall i :: 0 <= i < |rs| ==> rs[i].sessionId != SchemaString(sessionId)
    ensures Newest(rs + xs, sessionId, now) ==
      match Newest(xs, sessionId, now) case None => None case Some(j) => Some(|rs| + j)
    decreases |xs|
  {
    if |xs| > 0 {
      var n := |xs| - 1;
      var ys := rs + xs;
      assert ys[..|ys| - 1] == rs + xs[..n];
      assert ys[|ys| - 1] == xs[n];
      NewestBehindOthers(rs, xs[..n], sessionId, now);
      var before := Newest(xs[..n], sessionId, now);
      var joined := Newest(rs + xs[..n], sessionId, now);
      var inSession := OfSession(xs[n], sessionId, now);
      assert Newest(xs, sessionId, now) ==
        if inSession && (before.None? || xs[n].lastSubmissionAttempt > xs[before.value].lastSubmissionAttempt)
        then Some(n) else before;
      assert Newest(ys, sessionId, now) ==
        if inSession && (joined.None? || xs[n].lastSubmissionAttempt > ys[joined.value].lastSubmissionAttempt)
        then Some(|rs| + n) else joined;
      match before
      case None =>
        assert joined == None;
      case Some(j) =>
        assert joined == Some(|rs| + j);
        assert ys[|rs| + j] == xs[j];
    } else {
      assert rs + xs == rs;
      NoneAmongOthers(rs, sessionId, now);
    }
  }

  /** A collection holding only records of other sessions has no newest record of the session. */
  lemma {:induction false} NoneAmongOthers(rs: seq<Submission>, sessionId: Value, now: int)
    requires forall i :: 0 <= i < |rs| ==> rs[i].sessionId != SchemaString(sessionId)
    ensures Newest(rs, sessionId, now).None?
    decreases |rs|
  {
    if |rs| > 0 {
      var n := |rs| - 1;
      assert forall i :: 0 <= i < n ==> rs[..n][i] == rs[i];
      NoneAmongOthers(rs[..n], sessionId, now);
      assert !OfSession(rs[n], sessionId, now);
    }
  }

  /** The session's records after three accepted submissions: the first was bumped at `t2` and at `t3`. */
  function ThreeRecords(a1: Submission, a2: Submission, a3: Submission, t2: int, t3: int): seq<Submission> {
    [Bumped(Bumped(a1, t2), t3), a2, a3]
  }

  /** The guard on a collection whose records of the session all follow records of other sessions. */
  lemma GuardBehindOthers(rs: seq<Submission>, xs: seq<Submission>, sessionId: Value, now: int, newest: nat, count: nat)
    requires forall i :: 0 <= i < |rs| ==> rs[i].sessionId != SchemaString(sessionId)
    requires Newest(xs, sessionId, now) == Some(newest) && SessionCount(xs, sessionId, now) == count
    ensures Newest(rs + xs, sessionId, now) == Some(|rs| + newest)
    ensures SessionCount(rs + xs, sessionId, now) == count
  {
    NewestBehindOthers(rs, xs, sessionId, now);
    SessionCountConcat(rs, xs, sessionId, now);
  }

  /**
   * A session may submit three times within five minutes and the fourth
   * attempt is refused, even with 30 s between attempts: the guard counts
   * records in the window, and each accepted submission adds one. Here a
   * session without an address submits at `t1`, `t2`, `t3` and tries again
   * at `t4`, each at least 30 s after the one before and all within five
   * minutes of the first, in a collection where it has no records yet.
   */
  lemma FourthSubmissionRefused(rs: seq<Submission>, sessionId: Value,
                                a1: Submission, a2: Submission, a3: Submission, t1: int, t2: int, t3: int, t4: int)
    requires forall i :: 0 <= i < |rs| ==> rs[i].sessionId != SchemaString(sessionId)
    requires a1.sessionId == SchemaString(sessionId) && a1.lastSubmissionAttempt == t1
    requires a2.sessionId == SchemaString(sessionId) && a2.lastSubmissionAttempt == t2
    requires a3.sessionId == SchemaString(sessionId) && a3.lastSubmissionAttempt == t3
    requires t2 - t1 >= MinGapMs && t3 - t2 >= MinGapMs && t4 - t3 >= MinGapMs && t4 - t1 <= WindowMs
    ensures GuardSpec(rs, sessionId, None, t1) == (Pass, rs)
    ensures GuardSpec(rs + [a1], sessionId, None, t2) == (Pass, rs + [Bumped(a1, t2)])
    ensures GuardSpec(rs + [Bumped(a1, t2), a2], sessionId, None, t3) == (Pass, rs + [Bumped(Bumped(a1, t2), t3), a2])
    ensures GuardSpec(rs + ThreeRecords(a1, a2, a3, t2, t3), sessionId, None, t4) ==
      (Fail(TooManyRequests(TooManyAttempts)), rs + ThreeRecords(a1, a2, a3, t2, t3))
  {
    FirstAttempt(rs, sessionId, t1);
    SecondAttempt(rs, sessionId, a1, t1, t2);
    ThirdAttempt(rs, sessionId, a1, a2, t1, t2, t3);
    FourthAttempt(rs, sessionId, a1, a2, a3, t1, t2, t3, t4);
  }

  lemma FirstAttempt(rs: seq<Submission>, sessionId: Value, t1: int)
    requires forall i :: 0 <= i < |rs| ==> rs[i].sessionId != SchemaString(sessionId)
    ensures GuardSpec(rs, sessionId, None, t1) == (Pass, rs)
  {
    NewestIsNewest(rs, sessionId, t1);
  }

  lemma SecondAttempt(rs: seq<Submission>, sessionId: Value, a1: Submission, t1: int, t2: int)
    requires forall i :: 0 <= i < |rs| ==> rs[i].sessionId != SchemaString(sessionId)
    requires a1.sessionId == SchemaString(sessionId) && a1.lastSubmissionAttempt == t1
    requires t2 - t1 >= MinGapMs && t2 - t1 <= WindowMs
    ensures GuardSpec(rs + [a1], sessionId, None, t2) == (Pass, rs + [Bumped(a1, t2)])
  {
    var xs := [a1];
    assert xs[..0] == [];
    GuardBehindOthers(rs, xs, sessionId, t2, 0, 1);
    assert (rs + xs)[|rs| := Bumped(a1, t2)] == rs + [Bumped(a1, t2)];
  }

  lemma ThirdAttempt(rs: seq<Submission>, sessionId: Value, a1: Submission, a2: Submission, t1: int, t2: int, t3: int)
    requires forall i :: 0 <= i < |rs| ==> rs[i].sessionId != SchemaString(sessionId)
    requires a2.sessionId == SchemaString(sessionId) && a2.lastSubmissionAttempt == t2
    requires a1.sessionId == SchemaString(sessionId) && t3 - t2 >= MinGapMs && t3 - t2 <= WindowMs
    ensures GuardSpec(rs + [Bumped(a1, t2), a2], sessionId, None, t3) == (Pass, rs + [Bumped(Bumped(a1, t2), t3), a2])
  {
    var xs := [Bumped(a1, t2), a2];
    assert xs[..1] == [Bumped(a1, t2)] && xs[..1][..0] == [];
    GuardBehindOthers(rs, xs, sessionId, t3, 0, 2);
    assert (rs + xs)[|rs| := Bumped(Bumped(a1, t2), t3)] == rs + [Bumped(Bumped(a1, t2), t3), a2];
  }

  lemma FourthAttempt(rs: seq<Submission>, sessionId: Value,
                      a1: Submission, a2: Submission, a3: Submission, t1: int, t2: int, t3: int, t4: int)
    requires forall i :: 0 <= i < |rs| ==> rs[i].sessionId != SchemaString(sessionId)
    requires a1.sessionId == SchemaString(sessionId)
    requires a2.sessionId == SchemaString(sessionId) && a2.lastSubmissionAttempt == t2
    requires a3.sessionId == SchemaString(sessionId) && a3.lastSubmissionAttempt == t3
    requires t2 <= t3 && t4 - t3 >= MinGapMs && t4 - t2 <= WindowMs
    ensures GuardSpec(rs + ThreeRecords(a1, a2, a3, t2, t3), sessionId, None, t4) ==
      (Fail(TooManyRequests(TooManyAttempts)), rs + ThreeRecords(a1, a2, a3, t2, t3))
  {
    var xs := ThreeRecords(a1, a2, a3, t2, t3);
    assert xs[..2] == [Bumped(Bumped(a1, t2), t3), a2] && xs[..2][..1] == [Bumped(Bumped(a1, t2), t3)];
    assert xs[..2][..1][..0] == [];
    assert Newest(xs[..2][..1], sessionId, t4) == Some(0) && SessionCount(xs[..2][..1], sessionId, t4) == 1;
    assert Newest(xs[..2], sessionId, t4) == Some(0) && SessionCount(xs[..2], sessionId, t4) == 2;
    GuardBehindOthers(rs, xs, sessionId, t4, 0, 3);
  }

  // ---------------------------------------------------------------------------
  // submitForm
  // ---------------------------------------------------------------------------

  /** What `submitForm` answers: the new record's id, or (TypeScript tree) a failure reported as data. */
  datatype SubmitReply = Submitted(submissionId: nat) | NotSubmitted(message: string, errors: seq<string>)

  /** The sanitised questions a record stores (`(questions || []).map(sanitizeInput)`). */
  function StoredQuestions(payload: Value): (qs: seq<Value>)
    ensures Prop(payload, "questions").Arr? ==> |qs| == |Prop(payload, "questions").items|
  {
    match Prop(payload, "questions")
    case Arr(items) => seq(|items|, i requires 0 <= i < |items| => Sanitize.Sanitize(items[i]))
    case _ => []
  }

  /** The sanitised answers a record stores (`sanitizeInput(answers || {})`). */
  function StoredAnswers(payload: Value): Value {
    var answers := Prop(payload, "answers");
    Sanitize.Sanitize(if Truthy(answers) then answers else Obj([]))
  }

  /**
   * A validated payload has an array of questions and an object of answers,
   * so the CommonJS tree's `|| []` and `|| {}` never apply and both trees
   * store the same record.
   */
  lemma ValidatedPayloadShape(variant: FV.Variant, payload: Value, limits: Config.Limits)
    requires FV.ValidateSpec(variant, payload, limits) == Pass
    ensures IsObject(payload)
    ensures Prop(payload, "questions").Arr? && IsObject(Prop(payload, "answers"))
    ensures StoredAnswers(payload) == Sanitize.Sanitize(Prop(payload, "answers"))
  {
    FV.SubmissionAccepted(variant, payload, limits);
  }

  /**
   * The record an accepted submission appends. The schema stores `formId`,
   * `userEmail`, `sessionId` and `draftSessionId` as strings.
   */
  function NewRecord(payload: Value, meta: RequestMetadata, now: int): Submission {
    var convert := Truthy(Prop(payload, "convertFromDraft"));
    Submission(
      SchemaString(Prop(payload, "formId")),
      StoredQuestions(payload),
      StoredAnswers(payload),
      SchemaString(Prop(payload, "userEmail")),
      SchemaString(Prop(payload, "sessionId")),
      now,
      false,
      if convert then SchemaString(Prop(payload, "sessionId")) else Undefined,
      1,
      now,
      Metadata(meta.ipAddress, meta.userAgent, "1.0.0", "easyform-frontend", convert))
  }

  /**
   * The record holds the payload's form, e-mail and session as the schema
   * casts them (a number as its decimal string), sanitised
   * questions (one per question) and answers with no `<` or `>` left, is not
   * a draft, counts one attempt made `now`, and names the draft it came from
   * exactly when `convertFromDraft` is set.
   */
  lemma NewRecordFields(payload: Value, meta: RequestMetadata, now: int)
    ensures var r := NewRecord(payload, meta, now);
      && r.formId == SchemaString(Prop(payload, "formId")) && r.userEmail == SchemaString(Prop(payload, "userEmail"))
      && r.sessionId == SchemaString(Prop(payload, "sessionId"))
      && !r.isDraft && r.submissionAttempts == 1
      && r.submittedAt == now && r.lastSubmissionAttempt == now
      && (Truthy(Prop(payload, "convertFromDraft")) ==> r.draftSessionId == SchemaString(Prop(payload, "sessionId")))
      && (!Truthy(Prop(payload, "convertFromDraft")) ==> r.draftSessionId == Undefined)
      && r.metadata.convertedFromDraft == Truthy(Prop(payload, "convertFromDraft"))
      && r.metadata.ipAddress == meta.ipAddress
      && (forall i :: 0 <= i < |r.questions| ==> Sanitize.NoAngles(r.questions[i]))
      && Sanitize.NoAngles(r.answers)
  {
    var r := NewRecord(payload, meta, now);
    forall i | 0 <= i < |r.questions| ensures Sanitize.NoAngles(r.questions[i]) {
      Sanitize.SanitizeRemovesAngles(Prop(payload, "questions").items[i]);
    }
    var answers := Prop(payload, "answers");
    Sanitize.SanitizeRemovesAngles(if Truthy(answers) then answers else Obj([]));
  }

  /** How a validation failure leaves `submitForm` in each tree. */
  function ValidationFailure(variant: FV.Variant, e: FV.ValidationError): (r: Result<SubmitReply, HttpError>)
    ensures variant == FV.TypeScript ==> r == Success(NotSubmitted(SubmissionFailed, [FV.Message(e)]))
    ensures variant == FV.CommonJs && !e.CannotReadProperty? ==> r == Failure(BadRequest(FV.Message(e)))
  {
    if variant == FV.TypeScript then Success(NotSubmitted(SubmissionFailed, [FV.Message(e)]))
    else if e.CannotReadProperty? then Failure(Internal(SubmissionFailed))
    else Failure(BadRequest(FV.Message(e)))
  }

  /** How a failing store write leaves `submitForm` in each tree. */
  function StoreFailure(variant: FV.Variant, f: StoreFault): (r: Result<SubmitReply, HttpError>)
    ensures variant == FV.CommonJs ==> r.Failure? && (r.error.BadRequest? || r.error == Internal(SubmissionFailed))
    ensures variant == FV.CommonJs && r.error.BadRequest? <==>
      variant == FV.CommonJs && f.StoreError? && (f.name == "ValidationError" || f.name == "CastError")
    ensures variant == FV.TypeScript ==> r.Success? && r.value.NotSubmitted? && r.value.message == SubmissionFailed
  {
    if variant == FV.TypeScript then
      Success(NotSubmitted(SubmissionFailed, [if f.StoreError? then f.message else "An unexpected error occurred"]))
    else if f.StoreError? && (f.name == "ValidationError" || f.name == "CastError") then Failure(BadRequest(f.message))
    else Failure(Internal(SubmissionFailed))
  }

  /**
   * `cleanupConvertedDraft(sessionId)`: the draft stored under the session id
   * (cast to a string, as the query does) goes, unless the delete fails,
   * which is ignored.
   */
  function CleanupSpec(drafts: map<string, Drafts.Draft>, sessionId: Value, fails: bool): map<string, Drafts.Draft> {
    var key := SchemaString(sessionId);
    if fails || !key.Str? then drafts else drafts - {key.s}
  }

  /**
   * `submitForm(submissionData, metadata)`: the reply, the submissions and
   * the drafts it leaves. `saveFault` is a failing record write and
   * `cleanupFails` a failing draft delete.
   */
  function SubmitSpec(variant: FV.Variant, rs: seq<Submission>, ds: map<string, Drafts.Draft>, payload: Value,
                      meta: RequestMetadata, limits: Config.Limits, now: int,
                      saveFault: Option<StoreFault>, cleanupFails: bool)
    : (Result<SubmitReply, HttpError>, seq<Submission>, map<string, Drafts.Draft>)
  {
    match FV.ValidateSpec(variant, payload, limits)
    case Fail(e) => (ValidationFailure(variant, e), rs, ds)
    case Pass => AcceptedSpec(variant, rs, ds, payload, meta, now, saveFault, cleanupFails)
  }

  /** What `submitForm` does with a payload the validator accepted: guard, write, clean up. */
  function AcceptedSpec(variant: FV.Variant, rs: seq<Submission>, ds: map<string, Drafts.Draft>, payload: Value,
                        meta: RequestMetadata, now: int, saveFault: Option<StoreFault>, cleanupFails: bool)
    : (Result<SubmitReply, HttpError>, seq<Submission>, map<string, Drafts.Draft>)
  {
    var sessionId := Prop(payload, "sessionId");
    var guard := if Truthy(sessionId) then GuardSpec(rs, sessionId, meta.ipAddress, now) else (Pass, rs);
    if guard.0.Fail? then (Failure(guard.0.error), guard.1, ds)
    else if saveFault.Some? then (StoreFailure(variant, saveFault.value), guard.1, ds)
    else
      var converting := Truthy(Prop(payload, "convertFromDraft")) && Truthy(sessionId);
      (Success(Submitted(|guard.1|)),
       guard.1 + [NewRecord(payload, meta, now)],
       if converting then CleanupSpec(ds, sessionId, cleanupFails) else ds)
  }

  /** A payload validation refuses writes nothing, and no record id comes back. */
  lemma RejectedPayloadChangesNothing(variant: FV.Variant, rs: seq<Submission>, ds: map<string, Drafts.Draft>,
                                      payload: Value, meta: RequestMetadata, limits: Config.Limits, now: int,
                                      saveFault: Option<StoreFault>, cleanupFails: bool)
    requires !FV.SubmissionOk(payload, limits)
    ensures var out := SubmitSpec(variant, rs, ds, payload, meta, limits, now, saveFault, cleanupFails);
      && out.1 == rs && out.2 == ds
      && !(out.0.Success? && out.0.value.Submitted?)
  {
    FV.SubmissionAccepted(variant, payload, limits);
  }

  /**
   * Without a session id neither the session check nor the address check
   * runs: a valid payload whose write succeeds is appended as it is, and
   * its id is the number of records before it.
   */
  lemma NoSessionSkipsGuard(variant: FV.Variant, rs: seq<Submission>, ds: map<string, Drafts.Draft>,
                            payload: Value, meta: RequestMetadata, limits: Config.Limits, now: int, cleanupFails: bool)
    requires FV.SubmissionOk(payload, limits) && !Truthy(Prop(payload, "sessionId"))
    ensures SubmitSpec(variant, rs, ds, payload, meta, limits, now, None, cleanupFails) ==
      (Success(Submitted(|rs|)), rs + [NewRecord(payload, meta, now)], ds)
  {
    FV.SubmissionAccepted(variant, payload, limits);
  }

  /**
   * A refusal by the guard is the reply of either tree, and the collection
   * keeps whatever the guard wrote (the bump before an address refusal).
   */
  lemma GuardRefusalPropagates(variant: FV.Variant, rs: seq<Submission>, ds: map<string, Drafts.Draft>,
                               payload: Value, meta: RequestMetadata, limits: Config.Limits, now: int,
                               saveFault: Option<StoreFault>, cleanupFails: bool)
    requires FV.SubmissionOk(payload, limits) && Truthy(Prop(payload, "sessionId"))
    requires GuardSpec(rs, Prop(payload, "sessionId"), meta.ipAddress, now).0.Fail?
    ensures SubmitSpec(variant, rs, ds, payload, meta, limits, now, saveFault, cleanupFails) ==
      (Failure(GuardSpec(rs, Prop(payload, "sessionId"), meta.ipAddress, now).0.error),
       GuardState(rs, Prop(payload, "sessionId"), now), ds)
  {
    FV.SubmissionAccepted(variant, payload, limits);
    GuardWritesOnlyTheBump(rs, Prop(payload, "sessionId"), meta.ipAddress, now);
  }

  /**
   * A submission is stored exactly when the reply carries an id: the
   * payload was valid, one record was appended at that id, and the records
   * before it are the ones the guard left. Any other reply leaves the number
   * of records as it was.
   */
  lemma SubmittedMeansAppended(variant: FV.Variant, rs: seq<Submission>, ds: map<string, Drafts.Draft>,
                               payload: Value, meta: RequestMetadata, limits: Config.Limits, now: int,
                               saveFault: Option<StoreFault>, cleanupFails: bool)
    ensures var out := SubmitSpec(variant, rs, ds, payload, meta, limits, now, saveFault, cleanupFails);
      var sessionId := Prop(payload, "sessionId");
      && (out.0.Success? && out.0.value.Submitted? ==>
            && FV.SubmissionOk(payload, limits)
            && saveFault.None?
            && |out.1| == |rs| + 1
            && out.0.value.submissionId == |rs|
            && out.1[|rs|] == NewRecord(payload, meta, now)
            && out.1[..|rs|] == (if Truthy(sessionId) then GuardState(rs, sessionId, now) else rs))
      && (!(out.0.Success? && out.0.value.Submitted?) ==> |out.1| == |rs|)
  {
    FV.SubmissionAccepted(variant, payload, limits);
    var sessionId := Prop(payload, "sessionId");
    if Truthy(sessionId) {
      GuardWritesOnlyTheBump(rs, sessionId, meta.ipAddress, now);
    }
  }

  /**
   * Drafts change only through a successful conversion: the session's draft
   * is gone afterwards unless its delete failed, and nothing else is touched.
   */
  lemma DraftRemovedOnlyOnConversion(variant: FV.Variant, rs: seq<Submission>, ds: map<string, Drafts.Draft>,
                                     payload: Value, meta: RequestMetadata, limits: Config.Limits, now: int,
                                     saveFault: Option<StoreFault>, cleanupFails: bool)
    ensures var out := SubmitSpec(variant, rs, ds, payload, meta, limits, now, saveFault, cleanupFails);
      var key := SchemaString(Prop(payload, "sessionId"));
      && (out.2 != ds ==>
            && out.0.Success? && out.0.value.Submitted?
            && Truthy(Prop(payload, "convertFromDraft")) && Truthy(Prop(payload, "sessionId"))
            && key.Str? && !cleanupFails
            && out.2 == ds - {key.s})
      && ((out.0.Success? && out.0.value.Submitted? && Truthy(Prop(payload, "convertFromDraft"))
             && Truthy(Prop(payload, "sessionId")) && key.Str? && !cleanupFails) ==> key.s !in out.2)
  {
    var out := SubmitSpec(variant, rs, ds, payload, meta, limits, now, saveFault, cleanupFails);
    if FV.ValidateSpec(variant, payload, limits).Fail? {
      assert out.2 == ds && !(out.0.Success? && out.0.value.Submitted?);
    } else {
      assert out == AcceptedSpec(variant, rs, ds, payload, meta, now, saveFault, cleanupFails);
      AcceptedDraftChange(variant, rs, ds, payload, meta, now, saveFault, cleanupFails);
    }
  }

  /** Past validation, the drafts change only when a conversion's write and delete both succeed. */
  lemma AcceptedDraftChange(variant: FV.Variant, rs: seq<Submission>, ds: map<string, Drafts.Draft>,
                            payload: Value, meta: RequestMetadata, now: int,
                            saveFault: Option<StoreFault>, cleanupFails: bool)
    ensures var out := AcceptedSpec(variant, rs, ds, payload, meta, now, saveFault, cleanupFails);
      var key := SchemaString(Prop(payload, "sessionId"));
      && (out.2 != ds ==>
            && out.0.Success? && out.0.value.Submitted?
            && Truthy(Prop(payload, "convertFromDraft")) && Truthy(Prop(payload, "sessionId"))
            && key.Str? && !cleanupFails
            && out.2 == ds - {key.s})
      && ((out.0.Success? && out.0.value.Submitted? && Truthy(Prop(payload, "convertFromDraft"))
             && Truthy(Prop(payload, "sessionId")) && key.Str? && !cleanupFails) ==> key.s !in out.2)
  {
  }

  /**
   * The two trees store the same records and drafts for every request; they
   * differ only in how a failure is reported.
   */
  lemma TreesLeaveSameState(rs: seq<Submission>, ds: map<string, Drafts.Draft>,
                            payload: Value, meta: RequestMetadata, limits: Config.Limits, now: int,
                            saveFault: Option<StoreFault>, cleanupFails: bool)
    ensures var cjs := SubmitSpec(FV.CommonJs, rs, ds, payload, meta, limits, now, saveFault, cleanupFails);
      var ts := SubmitSpec(FV.TypeScript, rs, ds, payload, meta, limits, now, saveFault, cleanupFails);
      && cjs.1 == ts.1 && cjs.2 == ts.2
      && (cjs.0.Success? && cjs.0.value.Submitted? <==> ts.0.Success? && ts.0.value.Submitted?)
  {
    FV.TreesAgree(payload, limits);
    if FV.ValidateSpec(FV.CommonJs, payload, limits) == Pass {
      AcceptedSameInBothTrees(rs, ds, payload, meta, now, saveFault, cleanupFails);
    }
  }

  /** Past validation the trees differ only in how a failing write is reported. */
  lemma AcceptedSameInBothTrees(rs: seq<Submission>, ds: map<string, Drafts.Draft>, payload: Value,
                                meta: RequestMetadata, now: int, saveFault: Option<StoreFault>, cleanupFails: bool)
    ensures var cjs := AcceptedSpec(FV.CommonJs, rs, ds, payload, meta, now, saveFault, cleanupFails);
      var ts := AcceptedSpec(FV.TypeScript, rs, ds, payload, meta, now, saveFault, cleanupFails);
      && cjs.1 == ts.1 && cjs.2 == ts.2
      && (cjs.0.Success? && cjs.0.value.Submitted? <==> ts.0.Success? && ts.0.value.Submitted?)
  {
  }

  /** The submissions collection. */
  class SubmissionStore {
    var records: seq<Submission>

    constructor()
      ensures records == []
    {
      records := [];
    }

    /** `checkSubmissionProtection(sessionId, ipAddress)`. */
    method CheckSubmissionProtection(sessionId: Value, ip: Option<string>, now: int) returns (r: Outcome<HttpError>)
      modifies this
      ensures (r, records) == GuardSpec(old(records), sessionId, ip, now)
    {
      var verdict := SessionVerdictOf(records, sessionId, now);
      match verdict {
        case TooSoon =>
          return Fail(TooManyRequests(PleaseWait));
        case TooMany =>
          return Fail(TooManyRequests(TooManyAttempts));
        case BumpNewest(i) =>
          records := records[i := Bumped(records[i], now)];
        case NoRecent =>
      }
      if AddressRefused(records, ip, now) {
        return Fail(TooManyRequests(TooManyFromIp));
      }
      r := Pass;
    }

    /** `FormSubmission.create(...)`: the record goes at the end; its id is its position. */
    method Append(record: Submission) returns (id: nat)
      modifies this
      ensures records == old(records) + [record] && id == |old(records)|
    {
      id := |records|;
      records := records + [record];
    }

    /** `submitForm(submissionData, metadata)` of either tree. */
    method SubmitForm(variant: FV.Variant, payload: Value, meta: RequestMetadata, limits: Config.Limits, now: int,
                      saveFault: Option<StoreFault>, drafts: Drafts.DraftStore, cleanupFails: bool)
      returns (r: Result<SubmitReply, HttpError>)
      requires drafts.Valid()
      modifies this, drafts
      ensures drafts.Valid()
      ensures (r, records, drafts.drafts) ==
        SubmitSpec(variant, old(records), old(drafts.drafts), payload, meta, limits, now, saveFault, cleanupFails)
      ensures drafts.nextId == old(drafts.nextId)
    {
      var check := FV.ValidateFormSubmission(variant, payload, limits);
      if check.Fail? {
        return ValidationFailure(variant, check.error);
      }
      var sessionId := Prop(payload, "sessionId");
      if Truthy(sessionId) {
        var guard := CheckSubmissionProtection(sessionId, meta.ipAddress, now);
        if guard.Fail? {
          return Failure(guard.error);
        }
      }
      if saveFault.Some? {
        return StoreFailure(variant, saveFault.value);
      }
      var id := Append(NewRecord(payload, meta, now));
      if Truthy(Prop(payload, "convertFromDraft")) && Truthy(sessionId) {
        CleanupConvertedDraft(drafts, sessionId, cleanupFails);
      }
      r := Success(Submitted(id));
    }

    /** `getFormSubmissions(formId, userEmail, limit, offset)`: reads the collection and changes nothing. */
    method GetFormSubmissions(formId: Value, userEmail: Value, limit: Number, offset: Number, fails: bool)
      returns (r: Result<Page, HttpError>)
      ensures r == ListSpec(records, formId, userEmail, limit, offset, fails)
    {
      if !LimitOk(limit) {
        return Failure(BadRequest(BadLimit));
      }
      if !OffsetOk(offset) {
        return Failure(BadRequest(BadOffset));
      }
      if fails {
        return Failure(Internal(FetchFailed));
      }
      var listing := Listing(records, formId, userEmail);
      var from := Skip(offset, |listing|);
      r := Success(Page(Window(listing, from, limit.v), |Filtered(records, formId, userEmail)|));
    }
  }

  /** `cleanupConvertedDraft(sessionId)`: a failing delete is swallowed. */
  method CleanupConvertedDraft(drafts: Drafts.DraftStore, sessionId: Value, fails: bool)
    requires drafts.Valid()
    modifies drafts
    ensures drafts.Valid()
    ensures drafts.drafts == CleanupSpec(old(drafts.drafts), sessionId, fails) && drafts.nextId == old(drafts.nextId)
  {
    var key := SchemaString(sessionId);
    if !fails && key.Str? {
      var _ := drafts.DeleteOne(key.s);
    }
  }

  // ---------------------------------------------------------------------------
  // getFormSubmissions (CommonJS tree)
  // ---------------------------------------------------------------------------

  const BadLimit := "Limit must be between 1 and 100"
  const BadOffset := "Offset must be non-negative"
  const FetchFailed := "Failed to fetch form submissions"

  /** One page of the listing and the number of matching records. */
  datatype Page = Page(submissions: seq<Submission>, total: nat)

  /** The limit check: a number from 1 to 100 (`NaN` and both infinities fail). */
  predicate LimitOk(limit: Number) {
    limit.Finite? && 1 <= limit.v <= 100
  }

  /** The offset check: not `NaN` and not below zero (so `+Infinity` passes). */
  predicate OffsetOk(offset: Number) {
    (offset.Finite? && offset.v >= 0) || offset == Infinity(false)
  }

  /** The filter: on `formId` and on `userEmail`, each only when it is truthy and cast to a string. */
  predicate Matches(r: Submission, formId: Value, userEmail: Value) {
    (!Truthy(formId) || r.formId == SchemaString(formId)) && (!Truthy(userEmail) || r.userEmail == SchemaString(userEmail))
  }

  function Filtered(rs: seq<Submission>, formId: Value, userEmail: Value): seq<Submission> {
    if rs == [] then []
    else if Matches(rs[0], formId, userEmail) then [rs[0]] + Filtered(rs[1..], formId, userEmail)
    else Filtered(rs[1..], formId, userEmail)
  }

  /** `submittedAt` descending. */
  predicate NewestFirst(s: seq<Submission>) {
    forall i, j :: 0 <= i < j < |s| ==> s[i].submittedAt >= s[j].submittedAt
  }

  /** Puts `r` before the first record that is not newer than it. */
  function Insert(r: Submission, s: seq<Submission>): seq<Submission> {
    if s == [] || s[0].submittedAt <= r.submittedAt then [r] + s
    else [s[0]] + Insert(r, s[1..])
  }

  /** `.sort({ submittedAt: -1 })`; among equal times the earlier record comes first. */
  function SortNewestFirst(s: seq<Submission>): seq<Submission> {
    if s == [] then [] else Insert(s[0], SortNewestFirst(s[1..]))
  }

  /** Every matching record, newest first: what the listing pages through. */
  function Listing(rs: seq<Submission>, formId: Value, userEmail: Value): seq<Submission> {
    SortNewestFirst(Filtered(rs, formId, userEmail))
  }

  /** Where `skip` leaves the page: the offset, or past the end for `+Infinity`. */
  function Skip(offset: Number, n: nat): (k: nat)
    requires OffsetOk(offset)
    ensures k <= n
    ensures offset.Finite? && offset.v <= n ==> k == offset.v
  {
    if offset.Finite? && offset.v < n then offset.v else n
  }

  /** `.skip(from).limit(size)` on an ordered listing (the store skips first, whatever the call order). */
  function Window(s: seq<Submission>, from: nat, size: nat): seq<Submission>
    requires from <= |s|
  {
    s[from..if from + size <= |s| then from + size else |s|]
  }

  /** `getFormSubmissions(formId, userEmail, limit, offset)`; `fails` is a failing query. */
  function ListSpec(rs: seq<Submission>, formId: Value, userEmail: Value, limit: Number, offset: Number,
                    fails: bool): (r: Result<Page, HttpError>)
    ensures r == Failure(BadRequest(BadLimit)) <==> !LimitOk(limit)
    ensures r == Failure(BadRequest(BadOffset)) <==> LimitOk(limit) && !OffsetOk(offset)
    ensures r == Failure(Internal(FetchFailed)) <==> LimitOk(limit) && OffsetOk(offset) && fails
  {
    if !LimitOk(limit) then Failure(BadRequest(BadLimit))
    else if !OffsetOk(offset) then Failure(BadRequest(BadOffset))
    else if fails then Failure(Internal(FetchFailed))
    else
      var listing := Listing(rs, formId, userEmail);
      Success(Page(Window(listing, Skip(offset, |listing|), limit.v), |Filtered(rs, formId, userEmail)|))
  }

  /** The filter keeps exactly the matching records, each as often as it is stored. */
  lemma {:induction false} FilteredExact(rs: seq<Submission>, formId: Value, userEmail: Value)
    ensures forall x :: x in Filtered(rs, formId, userEmail) <==> x in rs && Matches(x, formId, userEmail)
    ensures forall x :: multiset(Filtered(rs, formId, userEmail))[x] == if Matches(x, formId, userEmail) then multiset(rs)[x] else 0
  {
    if rs != [] {
      FilteredExact(rs[1..], formId, userEmail);
      assert rs == [rs[0]] + rs[1..];
    }
  }

  lemma {:induction false} InsertPermutes(r: Submission, s: seq<Submission>)
    ensures multiset(Insert(r, s)) == multiset([r]) + multiset(s)
  {
    if s != [] && s[0].submittedAt > r.submittedAt {
      InsertPermutes(r, s[1..]);
      assert s == [s[0]] + s[1..];
    }
  }

  lemma {:induction false} InsertKeepsOrder(r: Submission, s: seq<Submission>)
    requires NewestFirst(s)
    ensures NewestFirst(Insert(r, s))
  {
    if s != [] && s[0].submittedAt > r.submittedAt {
      var t := Insert(r, s[1..]);
      InsertKeepsOrder(r, s[1..]);
      InsertPermutes(r, s[1..]);
      forall j | 0 <= j < |t| ensures s[0].submittedAt >= t[j].submittedAt {
        assert t[j] in multiset(t);
        if t[j] != r {
          assert t[j] in multiset(s[1..]);
          var k :| 0 <= k < |s[1..]| && s[1..][k] == t[j];
          assert s[k + 1] == t[j];
        }
      }
    }
  }

  /** The sort orders newest first and is a permutation of its input. */
  lemma {:induction false} SortNewestFirstCorrect(s: seq<Submission>)
    ensures NewestFirst(SortNewestFirst(s))
    ensures multiset(SortNewestFirst(s)) == multiset(s)
  {
    if s != [] {
      SortNewestFirstCorrect(s[1..]);
      InsertKeepsOrder(s[0], SortNewestFirst(s[1..]));
      InsertPermutes(s[0], SortNewestFirst(s[1..]));
      assert s == [s[0]] + s[1..];
    }
  }

  /** Sorting keeps the number of records. */
  lemma SortKeepsLength(s: seq<Submission>)
    ensures |SortNewestFirst(s)| == |s|
  {
    SortNewestFirstCorrect(s);
    assert |multiset(SortNewestFirst(s))| == |multiset(s)|;
  }

  /**
   * The listing holds every matching record as often as it is stored, no
   * other record, newest first.
   */
  lemma ListingCorrect(rs: seq<Submission>, formId: Value, userEmail: Value)
    ensures NewestFirst(Listing(rs, formId, userEmail))
    ensures forall x :: multiset(Listing(rs, formId, userEmail))[x] == if Matches(x, formId, userEmail) then multiset(rs)[x] else 0
    ensures |Listing(rs, formId, userEmail)| == |Filtered(rs, formId, userEmail)|
    ensures forall x :: x in Listing(rs, formId, userEmail) <==> x in rs && Matches(x, formId, userEmail)
  {
    var f := Filtered(rs, formId, userEmail);
    FilteredExact(rs, formId, userEmail);
    SortNewestFirstCorrect(f);
    assert |multiset(Listing(rs, formId, userEmail))| == |multiset(f)|;
    forall x ensures x in Listing(rs, formId, userEmail) <==> x in f {
      assert x in Listing(rs, formId, userEmail) <==> x in multiset(Listing(rs, formId, userEmail));
    }
  }

  /**
   * The listing has one entry per matching record: its length is that of
   * the filter, which keeps each matching record as often as it is stored.
   */
  lemma ListingLength(rs: seq<Submission>, formId: Value, userEmail: Value)
    ensures |Listing(rs, formId, userEmail)| == |Filtered(rs, formId, userEmail)|
    ensures forall x :: multiset(Filtered(rs, formId, userEmail))[x] == if Matches(x, formId, userEmail) then multiset(rs)[x] else 0
  {
    FilteredExact(rs, formId, userEmail);
    SortNewestFirstCorrect(Filtered(rs, formId, userEmail));
    assert |multiset(Listing(rs, formId, userEmail))| == |multiset(Filtered(rs, formId, userEmail))|;
  }

  /** A window holds at most `size` records of the listing, in the listing's order. */
  lemma WindowOfListing(s: seq<Submission>, from: nat, size: nat)
    requires from <= |s|
    ensures |Window(s, from, size)| <= size
    ensures forall x :: x in Window(s, from, size) ==> x in s
    ensures NewestFirst(s) ==> NewestFirst(Window(s, from, size))
    ensures from + size <= |s| ==> Window(s, from, size) == s[from..from + size]
    ensures from == |s| ==> Window(s, from, size) == []
  {
    var w := Window(s, from, size);
    forall x | x in w ensures x in s {
      var k :| 0 <= k < |w| && w[k] == x;
      assert s[from + k] == x;
    }
  }

  /**
   * A page holds at most `limit` records, newest first, each stored and
   * matching the filter; `total` counts every matching record whatever the
   * page; a page is the listing from the offset on, empty past its end.
   */
  lemma PageProperties(rs: seq<Submission>, formId: Value, userEmail: Value, limit: Number, offset: Number)
    requires LimitOk(limit) && OffsetOk(offset)
    ensures ListSpec(rs, formId, userEmail, limit, offset, false).Success?
    ensures var page := ListSpec(rs, formId, userEmail, limit, offset, false).value;
      var listing := Listing(rs, formId, userEmail);
      && |page.submissions| <= limit.v
      && NewestFirst(page.submissions)
      && (forall x :: x in page.submissions ==> x in rs && Matches(x, formId, userEmail))
      && page.total == |listing|
      && (forall x :: multiset(listing)[x] == if Matches(x, formId, userEmail) then multiset(rs)[x] else 0)
      && (offset.Finite? && offset.v + limit.v <= page.total ==> page.submissions == listing[offset.v..offset.v + limit.v])
      && ((offset.Finite? && offset.v >= page.total) || offset.Infinity? ==> page.submissions == [])
  {
    var listing := Listing(rs, formId, userEmail);
    ListingCorrect(rs, formId, userEmail);
    WindowOfListing(listing, Skip(offset, |listing|), limit.v);
  }

  /** A page that passes the checks is the window of the listing at the skip. */
  lemma PageAt(rs: seq<Submission>, formId: Value, userEmail: Value, limit: Number, offset: Number)
    requires LimitOk(limit) && OffsetOk(offset)
    ensures var listing := Listing(rs, formId, userEmail);
      ListSpec(rs, formId, userEmail, limit, offset, false) ==
        Success(Page(Window(listing, Skip(offset, |listing|), limit.v), |Filtered(rs, formId, userEmail)|))
  {
  }

  /**
   * Two consecutive windows of the same size make the window of twice that
   * size: paging neither skips nor repeats a record.
   */
  lemma ConsecutiveWindows(s: seq<Submission>, from: nat, size: nat)
    requires from + size <= |s|
    ensures Window(s, from, size) + Window(s, from + size, size) == Window(s, from, 2 * size)
  {
  }

  /** The same for pages of the listing, from the second page's offset within the listing. */
  lemma ConsecutivePages(rs: seq<Submission>, formId: Value, userEmail: Value, size: int, offset: int)
    requires 1 <= size && 2 * size <= 100 && offset >= 0
    requires offset + size <= |Filtered(rs, formId, userEmail)|
    ensures var p1 := ListSpec(rs, formId, userEmail, Finite(size), Finite(offset), false);
      var p2 := ListSpec(rs, formId, userEmail, Finite(size), Finite(offset + size), false);
      var both := ListSpec(rs, formId, userEmail, Finite(2 * size), Finite(offset), false);
      && p1.Success? && p2.Success? && both.Success?
      && both.value.submissions == p1.value.submissions + p2.value.submissions
  {
    var listing := Listing(rs, formId, userEmail);
    var total := |Filtered(rs, formId, userEmail)|;
    SortKeepsLength(Filtered(rs, formId, userEmail));
    assert |listing| == total;
    assert Skip(Finite(offset), |listing|) == offset;
    assert Skip(Finite(offset + size), |listing|) == offset + size;
    PageAt(rs, formId, userEmail, Finite(size), Finite(offset));
    PageAt(rs, formId, userEmail, Finite(size), Finite(offset + size));
    PageAt(rs, formId, userEmail, Finite(2 * size), Finite(offset));
    var w1 := Window(listing, offset, size);
    var w2 := Window(listing, offset + size, size);
    var w := Window(listing, offset, 2 * size);
    assert ListSpec(rs, formId, userEmail, Finite(size), Finite(offset), false) == Success(Page(w1, total));
    assert ListSpec(rs, formId, userEmail, Finite(size), Finite(offset + size), false) == Success(Page(w2, total));
    assert ListSpec(rs, formId, userEmail, Finite(2 * size), Finite(offset), false) == Success(Page(w, total));
    ConsecutiveWindows(listing, offset, size);
  }
}
