/**
 * The draft lifecycle of `services/draftService.js` (CommonJS tree) and
 * `src/services/draftService.ts` (TypeScript tree): an upsert keyed by the
 * session id, an expiry-aware read, a delete, an expiry sweep and the
 * statistics over live drafts. The drafts collection is a map from session
 * id to draft, so the unique index on `sessionId` holds by construction.
 * Time is a number of milliseconds passed in as `now`.
 */
module Drafts {
  import opened Wrappers
  import opened Errors
  import opened JsStrings
  import opened JsValues

  /** Seven days in milliseconds: how long a saved draft lives. */
  const DraftLifetimeMs: int := 7 * 24 * 60 * 60 * 1000

  /** The shortest session id the services accept. */
  const MinSessionIdLength: nat := 10

  const InvalidSessionId := "Invalid session ID format"
  const DraftNotFound := "Draft not found"

  /** What a draft records about its answers when it is saved. */
  datatype DraftMetadata = DraftMetadata(answerCount: nat, lastQuestionAnswered: Option<string>)

  /** One stored draft; `id` is the store's `_id`, which an upsert keeps. */
  datatype Draft = Draft(
    id: nat,
    sessionId: string,
    formId: Value,
    answers: Value,
    currentStep: Number,
    lastModified: int,
    expiresAt: int,
    userAgent: Option<string>,
    ipAddress: Option<string>,
    metadata: DraftMetadata)

  /** What `getDraft` returns for a live draft. */
  datatype DraftView = DraftView(
    sessionId: string, formId: Value, answers: Value, currentStep: Number, lastModified: int, expiresAt: int)

  /** The reply to a save: the draft's id and time, or (TypeScript tree) a failure reported as data. */
  datatype SaveReply = DraftSaved(draftId: nat, lastModified: int) | DraftNotSaved(message: string, errors: seq<string>)

  /** The reply to an expiry sweep. */
  datatype CleanupReply = Cleaned(deletedCount: nat, message: string)

  /** The statistics the services report (the averages are not modelled). */
  datatype DraftStats = DraftStats(totalDrafts: nat, oldestDraft: Option<int>, newestDraft: Option<int>)

  // ---------------------------------------------------------------------------
  // Session ids and answers
  // ---------------------------------------------------------------------------

  /** `validateSessionId(sessionId)` of the CommonJS tree. */
  function CheckSessionId(sessionId: Value): (r: Outcome<HttpError>)
    ensures r.Pass? <==> sessionId.Str? && Utf16Length(sessionId.s) >= MinSessionIdLength
    ensures r.Fail? ==> r.error == BadRequest(InvalidSessionId)
  {
    if !Truthy(sessionId) || !sessionId.Str? || Utf16Length(sessionId.s) < MinSessionIdLength then Fail(BadRequest(InvalidSessionId))
    else Pass
  }

  /** The TypeScript tree's `!sessionId || sessionId.length < 10` on a `string`. */
  function CheckSessionIdTs(sessionId: string): (r: Outcome<HttpError>)
    ensures r.Pass? <==> Utf16Length(sessionId) >= MinSessionIdLength
    ensures r.Fail? ==> r.error == BadRequest(InvalidSessionId)
  {
    if sessionId == "" || Utf16Length(sessionId) < MinSessionIdLength then Fail(BadRequest(InvalidSessionId)) else Pass
  }

  /** The keys of `entries` whose values are not `undefined`, `null` or `''`, in order. */
  function AnsweredKeys(entries: seq<(string, Value)>): seq<string> {
    if |entries| == 0 then []
    else (if IsEmptyAnswer(entries[0].1) then [] else [entries[0].0]) + AnsweredKeys(entries[1..])
  }

  /** `getLastAnsweredQuestion(answers)`: the last answered key, or `null`. */
  function LastAnsweredQuestion(answers: Value): Option<string> {
    var keys := AnsweredKeys(OwnEntries(answers));
    if |keys| == 0 then None else Some(keys[|keys| - 1])
  }

  /** A key is answered exactly when some entry with that key holds a non-empty value. */
  lemma {:induction false} AnsweredKeysMembers(entries: seq<(string, Value)>, key: string)
    ensures key in AnsweredKeys(entries) <==>
      exists i :: 0 <= i < |entries| && entries[i].0 == key && !IsEmptyAnswer(entries[i].1)
  {
    if |entries| > 0 {
      AnsweredKeysMembers(entries[1..], key);
      if exists i :: 0 <= i < |entries| && entries[i].0 == key && !IsEmptyAnswer(entries[i].1) {
        var i :| 0 <= i < |entries| && entries[i].0 == key && !IsEmptyAnswer(entries[i].1);
        if i > 0 {
          assert entries[1..][i - 1] == entries[i];
        }
      }
      if key in AnsweredKeys(entries[1..]) {
        var i :| 0 <= i < |entries[1..]| && entries[1..][i].0 == key && !IsEmptyAnswer(entries[1..][i].1);
        assert entries[i + 1] == entries[1..][i];
      }
    }
  }

  /**
   * The last answered key: `None` exactly when every entry is empty, and
   * otherwise the key of an answered entry after which every entry is empty.
   */
  lemma {:induction false} LastAnsweredIsLast(entries: seq<(string, Value)>)
    ensures |AnsweredKeys(entries)| == 0 <==> forall i :: 0 <= i < |entries| ==> IsEmptyAnswer(entries[i].1)
    ensures |AnsweredKeys(entries)| > 0 ==>
      exists i :: 0 <= i < |entries| && entries[i].0 == AnsweredKeys(entries)[|AnsweredKeys(entries)| - 1] &&
        !IsEmptyAnswer(entries[i].1) && forall j :: i < j < |entries| ==> IsEmptyAnswer(entries[j].1)
  {
    if |entries| > 0 {
      var rest := entries[1..];
      LastAnsweredIsLast(rest);
      var ks := AnsweredKeys(entries);
      if |AnsweredKeys(rest)| > 0 {
        var i :| 0 <= i < |rest| && rest[i].0 == AnsweredKeys(rest)[|AnsweredKeys(rest)| - 1] &&
          !IsEmptyAnswer(rest[i].1) && forall j :: i < j < |rest| ==> IsEmptyAnswer(rest[j].1);
        assert ks[|ks| - 1] == AnsweredKeys(rest)[|AnsweredKeys(rest)| - 1];
        forall j | i + 1 < j < |entries| ensures IsEmptyAnswer(entries[j].1) {
          assert entries[j] == rest[j - 1];
        }
        assert entries[i + 1] == rest[i];
      } else {
        forall j | 0 < j < |entries| ensures IsEmptyAnswer(entries[j].1) {
          assert entries[j] == rest[j - 1];
        }
      }
      if forall i :: 0 <= i < |entries| ==> IsEmptyAnswer(entries[i].1) {
        forall j | 0 <= j < |rest| ensures IsEmptyAnswer(rest[j].1) {
          assert rest[j] == entries[j + 1];
        }
      }
    }
  }

  /** `getLastAnsweredQuestion` on an object: `null` exactly when no own value is answered. */
  lemma LastAnsweredQuestionMeaning(answers: Value)
    ensures LastAnsweredQuestion(answers).None? <==>
      forall i :: 0 <= i < |OwnEntries(answers)| ==> IsEmptyAnswer(OwnEntries(answers)[i].1)
    ensures LastAnsweredQuestion(answers).Some? ==>
      exists i :: 0 <= i < |OwnEntries(answers)| && OwnEntries(answers)[i].0 == LastAnsweredQuestion(answers).value &&
        !IsEmptyAnswer(OwnEntries(answers)[i].1) &&
        forall j :: i < j < |OwnEntries(answers)| ==> IsEmptyAnswer(OwnEntries(answers)[j].1)
  {
    LastAnsweredIsLast(OwnEntries(answers));
  }

  /** The metadata a save records: every key counts, empty ones included. */
  function MetadataFor(answers: Value): (m: DraftMetadata)
    ensures m.answerCount == |OwnKeys(answers)|
  {
    DraftMetadata(|OwnEntries(answers)|, LastAnsweredQuestion(answers))
  }

  // ---------------------------------------------------------------------------
  // The schema's rule on `currentStep`
  // ---------------------------------------------------------------------------

  /** The schema's `min: 0` on `currentStep`. */
  predicate StepAllowed(step: Number) {
    match step
    case Finite(n) => n >= 0
    case NaN => false
    case Infinity(negative) => !negative
  }

  /**
   * The error the store's validators raise for a step the schema refuses:
   * `NaN` does not cast to a number, a negative value is under the minimum.
   * The texts are the schema library's default wording.
   */
  function StepRejection(step: Number): (f: Option<StoreFault>)
    ensures f.None? <==> StepAllowed(step)
    ensures f.Some? ==> f.value.StoreError?
  {
    if StepAllowed(step) then None
    else if step.NaN? then
      Some(StoreError("CastError", "Cast to Number failed for value \"NaN\" (type number) at path \"currentStep\""))
    else
      Some(StoreError("ValidationError", "Validation failed: currentStep: Path `currentStep` (" + NumberToString(step) +
        ") is less than minimum allowed value (0)."))
  }

  // ---------------------------------------------------------------------------
  // Reads over the collection
  // ---------------------------------------------------------------------------

  /** The live draft of `sessionId` at `now` (`expiresAt > now`), as `getDraft` returns it. */
  function LiveDraft(drafts: map<string, Draft>, sessionId: string, now: int): (r: Option<DraftView>)
    ensures r.Some? <==> sessionId in drafts && drafts[sessionId].expiresAt > now
  {
    if sessionId in drafts && drafts[sessionId].expiresAt > now then
      var d := drafts[sessionId];
      Some(DraftView(d.sessionId, d.formId, d.answers, d.currentStep, d.lastModified, d.expiresAt))
    else None
  }

  /** The session ids of the drafts a sweep at `now` deletes (`expiresAt < now`). */
  function ExpiredAt(drafts: map<string, Draft>, now: int): (ks: set<string>)
    ensures forall k :: k in ks <==> k in drafts && drafts[k].expiresAt < now
  {
    set k | k in drafts && drafts[k].expiresAt < now
  }

  /**
   * A draft the statistics count: live, and of the requested form when one
   * is given. The aggregation's `$match` compares the form id as given, with
   * no cast to the schema's string type.
   */
  predicate Counted(d: Draft, formId: Value, now: int) {
    d.expiresAt > now && (!Truthy(formId) || d.formId == formId)
  }

  /** The session ids the statistics count. */
  function CountedKeys(drafts: map<string, Draft>, formId: Value, now: int): (ks: set<string>)
    ensures forall k :: k in ks <==> k in drafts && Counted(drafts[k], formId, now)
  {
    set k | k in drafts && Counted(drafts[k], formId, now)
  }

  /** `oldest` is the least `lastModified` among the drafts filed under `ks`, or `None` when there are none. */
  predicate IsOldest(oldest: Option<int>, drafts: map<string, Draft>, ks: set<string>)
    requires ks <= drafts.Keys
  {
    && (oldest.None? <==> ks == {})
    && (oldest.Some? ==>
          (exists k :: k in ks && drafts[k].lastModified == oldest.value) &&
          (forall k :: k in ks ==> oldest.value <= drafts[k].lastModified))
  }

  /** `newest` is the greatest `lastModified` among the drafts filed under `ks`, or `None` when there are none. */
  predicate IsNewest(newest: Option<int>, drafts: map<string, Draft>, ks: set<string>)
    requires ks <= drafts.Keys
  {
    && (newest.None? <==> ks == {})
    && (newest.Some? ==>
          (exists k :: k in ks && drafts[k].lastModified == newest.value) &&
          (forall k :: k in ks ==> drafts[k].lastModified <= newest.value))
  }

  /** The statistics describe exactly the counted drafts: their number and the extremes of `lastModified`. */
  predicate StatsDescribe(stats: DraftStats, drafts: map<string, Draft>, formId: Value, now: int) {
    var ks := CountedKeys(drafts, formId, now);
    && stats.totalDrafts == |ks|
    && IsOldest(stats.oldestDraft, drafts, ks)
    && IsNewest(stats.newestDraft, drafts, ks)
  }

  /** The statistics with one more counted draft taken into account. */
  function AddDraft(acc: DraftStats, d: Draft): DraftStats {
    var t := d.lastModified;
    DraftStats(acc.totalDrafts + 1,
               if acc.oldestDraft.None? || t < acc.oldestDraft.value then Some(t) else acc.oldestDraft,
               if acc.newestDraft.None? || t > acc.newestDraft.value then Some(t) else acc.newestDraft)
  }

  /** The counted drafts among those filed under `done`. */
  function CountedAmong(drafts: map<string, Draft>, formId: Value, now: int, done: set<string>): (ks: set<string>)
    requires done <= drafts.Keys
    ensures ks <= drafts.Keys
  {
    set k | k in done && Counted(drafts[k], formId, now)
  }

  /** `acc` is the statistics of the counted drafts among those filed under `done`. */
  predicate Tally(acc: DraftStats, drafts: map<string, Draft>, formId: Value, now: int, done: set<string>)
    requires done <= drafts.Keys
  {
    var ks := CountedAmong(drafts, formId, now, done);
    acc.totalDrafts == |ks| && IsOldest(acc.oldestDraft, drafts, ks) && IsNewest(acc.newestDraft, drafts, ks)
  }

  /** Looking at one more draft adds it to the counted ones exactly when it counts. */
  lemma CountedAmongStep(drafts: map<string, Draft>, formId: Value, now: int, done: set<string>, k: string)
    requires done <= drafts.Keys && k in drafts
    ensures CountedAmong(drafts, formId, now, done + {k}) ==
      CountedAmong(drafts, formId, now, done) + (if Counted(drafts[k], formId, now) then {k} else {})
  {
  }

  /** Adding one draft to a described set keeps the cardinality and both extremes. */
  lemma AddDraftKeepsExtremes(acc: DraftStats, drafts: map<string, Draft>, ks: set<string>, k: string)
    requires ks <= drafts.Keys && k in drafts && k !in ks
    requires acc.totalDrafts == |ks| && IsOldest(acc.oldestDraft, drafts, ks) && IsNewest(acc.newestDraft, drafts, ks)
    ensures var next := AddDraft(acc, drafts[k]);
      next.totalDrafts == |ks + {k}| && IsOldest(next.oldestDraft, drafts, ks + {k}) && IsNewest(next.newestDraft, drafts, ks + {k})
  {
  }

  /** One more draft looked at keeps the tally. */
  lemma TallyStep(acc: DraftStats, drafts: map<string, Draft>, formId: Value, now: int, done: set<string>, k: string)
    requires done <= drafts.Keys && k in drafts && k !in done
    requires Tally(acc, drafts, formId, now, done)
    ensures Tally(if Counted(drafts[k], formId, now) then AddDraft(acc, drafts[k]) else acc, drafts, formId, now, done + {k})
  {
    CountedAmongStep(drafts, formId, now, done, k);
    if Counted(drafts[k], formId, now) {
      AddDraftKeepsExtremes(acc, drafts, CountedAmong(drafts, formId, now, done), k);
    }
  }

  /** A tally over every draft is the statistics. */
  lemma TallyComplete(acc: DraftStats, drafts: map<string, Draft>, formId: Value, now: int, done: set<string>)
    requires done <= drafts.Keys && drafts.Keys - done == {}
    requires Tally(acc, drafts, formId, now, done)
    ensures StatsDescribe(acc, drafts, formId, now)
  {
    forall k | k in drafts.Keys ensures k in done {
      assert k !in drafts.Keys - done;
    }
    assert done == drafts.Keys;
    assert CountedAmong(drafts, formId, now, drafts.Keys) == CountedKeys(drafts, formId, now);
  }

  /** With nothing to count the statistics are the zero record. */
  lemma StatsOfNothing(stats: DraftStats, drafts: map<string, Draft>, formId: Value, now: int)
    requires StatsDescribe(stats, drafts, formId, now)
    requires forall k :: k in drafts ==> !Counted(drafts[k], formId, now)
    ensures stats == DraftStats(0, None, None)
  {
    assert CountedKeys(drafts, formId, now) == {};
  }

  /** The draft a save stores under `id`; the schema stores `formId` as a string. */
  function NewDraft(id: nat, sessionId: string, formId: Value, answers: Value, step: Number,
                    userAgent: Option<string>, ipAddress: Option<string>, now: int): (d: Draft)
    ensures d.id == id && d.sessionId == sessionId && d.formId == SchemaString(formId)
    ensures d.lastModified == now && d.expiresAt == now + DraftLifetimeMs
  {
    Draft(id, sessionId, SchemaString(formId), answers, step, now, now + DraftLifetimeMs, userAgent, ipAddress, MetadataFor(answers))
  }

  /**
   * `findOneAndUpdate` with a plain object sets the listed keys on the stored
   * draft, and a key whose value is `undefined` is left out of the update:
   * the stored `formId`, `answers`, `userAgent` and `ipAddress` stay when the
   * save does not give them. Every other key is always given.
   */
  function ApplyUpdate(stored: Draft, update: Draft): Draft {
    update.(formId := if update.formId.Undefined? then stored.formId else update.formId,
            answers := if update.answers.Undefined? then stored.answers else update.answers,
            userAgent := if update.userAgent.None? then stored.userAgent else update.userAgent,
            ipAddress := if update.ipAddress.None? then stored.ipAddress else update.ipAddress)
  }

  /** The drafts after an upsert: the session's draft updated in place, or the update inserted as it is. */
  function Upserted(drafts: map<string, Draft>, update: Draft): map<string, Draft> {
    drafts[update.sessionId := if update.sessionId in drafts then ApplyUpdate(drafts[update.sessionId], update) else update]
  }

  /**
   * An upsert touches only the session's draft. That draft takes every key
   * the update gives; a key the update leaves undefined keeps the stored
   * value, or stays absent on an insert. An update that gives every key
   * replaces the draft outright.
   */
  lemma UpsertedFields(drafts: map<string, Draft>, update: Draft, k: string)
    ensures Upserted(drafts, update).Keys == drafts.Keys + {update.sessionId}
    ensures k in drafts && k != update.sessionId ==> Upserted(drafts, update)[k] == drafts[k]
    ensures var d := Upserted(drafts, update)[update.sessionId];
      var had := update.sessionId in drafts;
      && d.id == update.id && d.sessionId == update.sessionId && d.currentStep == update.currentStep
      && d.lastModified == update.lastModified && d.expiresAt == update.expiresAt && d.metadata == update.metadata
      && (!update.formId.Undefined? ==> d.formId == update.formId)
      && (update.formId.Undefined? ==> d.formId == (if had then drafts[update.sessionId].formId else Undefined))
      && (!update.answers.Undefined? ==> d.answers == update.answers)
      && (update.answers.Undefined? ==> d.answers == (if had then drafts[update.sessionId].answers else Undefined))
      && (update.userAgent.Some? ==> d.userAgent == update.userAgent)
      && (update.userAgent.None? ==> d.userAgent == (if had then drafts[update.sessionId].userAgent else None))
      && (update.ipAddress.Some? ==> d.ipAddress == update.ipAddress)
      && (update.ipAddress.None? ==> d.ipAddress == (if had then drafts[update.sessionId].ipAddress else None))
    ensures !update.formId.Undefined? && !update.answers.Undefined? && update.userAgent.Some? && update.ipAddress.Some? ==>
      Upserted(drafts, update) == drafts[update.sessionId := update]
  {
  }

  /**
   * A re-save that leaves out the form id keeps the stored one, so the
   * statistics for that form still count the draft while it is live.
   */
  lemma ResaveWithoutFormIdKeepsCounting(drafts: map<string, Draft>, update: Draft, formId: Value, now: int)
    requires update.sessionId in drafts && drafts[update.sessionId].formId == formId
    requires update.formId.Undefined?
    ensures Upserted(drafts, update)[update.sessionId].formId == formId
    ensures Counted(Upserted(drafts, update)[update.sessionId], formId, now) <==> update.expiresAt > now
  {
    var d := Upserted(drafts, update)[update.sessionId];
    assert d == ApplyUpdate(drafts[update.sessionId], update);
  }

  /**
   * Saved drafts hold their form id as a string, and the statistics do not
   * cast the requested one: asked for a truthy numeric form id, they count no saved
   * draft, not even one saved with that same number.
   */
  lemma NumericFormIdCountsNoSavedDraft(id: nat, sessionId: string, formId: Value, answers: Value, step: Number,
                                        userAgent: Option<string>, ipAddress: Option<string>, saved: int,
                                        n: Number, now: int)
    ensures Truthy(Num(n)) ==> !Counted(NewDraft(id, sessionId, formId, answers, step, userAgent, ipAddress, saved), Num(n), now)
  {
    assert !NewDraft(id, sessionId, formId, answers, step, userAgent, ipAddress, saved).formId.Num?;
  }

  // ---------------------------------------------------------------------------
  // Draft ids
  // ---------------------------------------------------------------------------

  /** Every id is below the next one the store hands out, and no two drafts share one. */
  predicate IdsDistinct(drafts: map<string, Draft>, nextId: nat) {
    && (forall s :: s in drafts ==> drafts[s].id < nextId)
    && (forall s, t :: s in drafts && t in drafts && s != t ==> drafts[s].id != drafts[t].id)
  }

  /** The `_id` an upsert for `sessionId` leaves: the stored draft's, or a fresh one. */
  function DraftIdFor(drafts: map<string, Draft>, nextId: nat, sessionId: string): nat {
    if sessionId in drafts then drafts[sessionId].id else nextId
  }

  /** The next fresh id after an upsert for `sessionId`. */
  function NextIdAfter(drafts: map<string, Draft>, nextId: nat, sessionId: string): nat {
    if sessionId in drafts then nextId else nextId + 1
  }

  /**
   * A session keeps its draft's id across saves; a session without a draft
   * gets an id no stored draft has.
   */
  lemma DraftIdOfSave(drafts: map<string, Draft>, nextId: nat, sessionId: string)
    requires IdsDistinct(drafts, nextId)
    ensures sessionId in drafts ==> DraftIdFor(drafts, nextId, sessionId) == drafts[sessionId].id
    ensures sessionId !in drafts ==> forall s :: s in drafts ==> drafts[s].id != DraftIdFor(drafts, nextId, sessionId)
  {
  }

  /** An upsert that uses the id `DraftIdFor` picks keeps the ids distinct. */
  lemma UpsertKeepsIdsDistinct(drafts: map<string, Draft>, nextId: nat, d: Draft)
    requires IdsDistinct(drafts, nextId)
    requires d.id == DraftIdFor(drafts, nextId, d.sessionId)
    ensures IdsDistinct(Upserted(drafts, d), NextIdAfter(drafts, nextId, d.sessionId))
  {
    var after := Upserted(drafts, d);
    assert after[d.sessionId].id == d.id;
    var n := NextIdAfter(drafts, nextId, d.sessionId);
    forall s, t | s in after && t in after && s != t ensures after[s].id != after[t].id {
      if s != d.sessionId && t != d.sessionId {
        assert after[s] == drafts[s] && after[t] == drafts[t];
      }
    }
  }

  /** A save leaves the next save of the same session with the same id. */
  lemma SaveKeepsDraftId(drafts: map<string, Draft>, nextId: nat, d: Draft)
    requires d.id == DraftIdFor(drafts, nextId, d.sessionId)
    ensures DraftIdFor(Upserted(drafts, d), NextIdAfter(drafts, nextId, d.sessionId), d.sessionId) ==
            DraftIdFor(drafts, nextId, d.sessionId)
  {
  }

  /** The CommonJS tree's answer to a failed store call in `saveDraft`. */
  function RootSaveFault(f: StoreFault): (e: HttpError)
    ensures e.BadRequest? <==> f.StoreError? && f.name == "ValidationError"
    ensures e.Internal? ==> e.message == "Failed to save draft"
  {
    if f.StoreError? && f.name == "ValidationError" then BadRequest(f.message)
    else Internal("Failed to save draft")
  }

  /** The TypeScript tree's answer to a failed store call in `saveDraft`, reported as data. */
  function TsSaveFault(f: StoreFault): (r: SaveReply)
    ensures r.DraftNotSaved? && r.message == "Failed to save draft" && |r.errors| == 1
    ensures f.StoreError? ==> r.errors == [f.message]
  {
    DraftNotSaved("Failed to save draft", [if f.StoreError? then f.message else "Failed to save draft"])
  }

  /** The sweep's success message. */
  function CleanupMessage(n: nat): string {
    "Successfully cleaned up " + NatToString(n) + " expired drafts"
  }

  /**
   * The drafts collection. `Valid` is what the schema keeps: each draft is
   * filed under its own session id and its step respects the minimum.
   */
  class DraftStore {
    var drafts: map<string, Draft>
    /** The id the store hands out to the next new draft. */
    var nextId: nat

    ghost predicate Valid()
      reads this
    {
      && (forall s :: s in drafts ==> drafts[s].sessionId == s && StepAllowed(drafts[s].currentStep))
      && IdsDistinct(drafts, nextId)
    }

    constructor()
      ensures Valid() && drafts == map[] && nextId == 0
    {
      drafts := map[];
      nextId := 0;
    }

    /**
     * The store's upsert (`findOneAndUpdate` with `upsert: true` and the
     * validators on): the update is applied to the draft filed under its
     * session id, or added under a fresh id; a refused step or a failing
     * store changes nothing.
     */
    method Upsert(d: Draft, fault: Option<StoreFault>) returns (failure: Option<StoreFault>)
      requires Valid()
      requires d.id == DraftIdFor(drafts, nextId, d.sessionId)
      modifies this
      ensures Valid()
      ensures failure == (if fault.Some? then fault else StepRejection(d.currentStep))
      ensures failure.None? ==> drafts == Upserted(old(drafts), d) && nextId == NextIdAfter(old(drafts), old(nextId), d.sessionId)
      ensures failure.Some? ==> drafts == old(drafts) && nextId == old(nextId)
    {
      failure := if fault.Some? then fault else StepRejection(d.currentStep);
      if failure.None? {
        UpsertKeepsIdsDistinct(drafts, nextId, d);
        nextId := NextIdAfter(drafts, nextId, d.sessionId);
        drafts := Upserted(drafts, d);
      }
    }

    /** The store's `deleteOne({ sessionId })`: whether a draft was removed. */
    method DeleteOne(sessionId: string) returns (deleted: bool)
      requires Valid()
      modifies this
      ensures Valid()
      ensures deleted <==> sessionId in old(drafts)
      ensures drafts == old(drafts) - {sessionId} && nextId == old(nextId)
    {
      deleted := sessionId in drafts;
      drafts := drafts - {sessionId};
    }

    /** `saveDraft(saveDraftDto, metadata)` of the CommonJS tree. */
    method SaveDraft(dto: Value, userAgent: Option<string>, ipAddress: Option<string>, now: int, fault: Option<StoreFault>)
      returns (r: Result<SaveReply, HttpError>)
      requires Valid()
      modifies this
      ensures Valid()
      ensures var d := if Truthy(dto) then dto else Obj([]);
        var sid := Prop(d, "sessionId");
        var step := Prop(d, "currentStep");
        var answers := if Truthy(Prop(d, "answers")) then Prop(d, "answers") else Obj([]);
        if CheckSessionId(sid).Fail? then r == Failure(BadRequest(InvalidSessionId)) && drafts == old(drafts) && nextId == old(nextId)
        else if !step.Num? || step.n.NaN? then
          r == Failure(BadRequest("Current step must be a number")) && drafts == old(drafts) && nextId == old(nextId)
        else
          var failure := if fault.Some? then fault else StepRejection(step.n);
          var id := DraftIdFor(old(drafts), old(nextId), sid.s);
          if failure.Some? then r == Failure(RootSaveFault(failure.value)) && drafts == old(drafts) && nextId == old(nextId)
          else r == Success(DraftSaved(id, now)) &&
               drafts == Upserted(old(drafts), NewDraft(id, sid.s, Prop(d, "formId"), answers, step.n, userAgent, ipAddress, now)) &&
               nextId == NextIdAfter(old(drafts), old(nextId), sid.s)
    {
      var d := if Truthy(dto) then dto else Obj([]);
      var sid := Prop(d, "sessionId");
      var step := Prop(d, "currentStep");
      var check := CheckSessionId(sid);
      if check.Fail? {
        return Failure(check.error);
      }
      if !step.Num? || step.n.NaN? {
        return Failure(BadRequest("Current step must be a number"));
      }
      var answers := if Truthy(Prop(d, "answers")) then Prop(d, "answers") else Obj([]);
      var id := DraftIdFor(drafts, nextId, sid.s);
      var draft := NewDraft(id, sid.s, Prop(d, "formId"), answers, step.n, userAgent, ipAddress, now);
      var failure := Upsert(draft, fault);
      if failure.Some? {
        return Failure(RootSaveFault(failure.value));
      }
      r := Success(DraftSaved(id, now));
    }

    /** `saveDraft(saveDraftDto, metadata)` of the TypeScript tree: `answers` is stored as given. */
    method SaveDraftTs(sessionId: string, formId: Value, answers: Value, currentStep: Number,
                       userAgent: Option<string>, ipAddress: Option<string>, now: int, fault: Option<StoreFault>)
      returns (r: Result<SaveReply, HttpError>)
      requires Valid()
      modifies this
      ensures Valid()
      ensures CheckSessionIdTs(sessionId).Fail? ==>
        r == Failure(BadRequest(InvalidSessionId)) && drafts == old(drafts) && nextId == old(nextId)
      ensures CheckSessionIdTs(sessionId).Pass? ==>
        var failure := if fault.Some? then fault else StepRejection(currentStep);
        var id := DraftIdFor(old(drafts), old(nextId), sessionId);
        if failure.Some? then r == Success(TsSaveFault(failure.value)) && drafts == old(drafts) && nextId == old(nextId)
        else r == Success(DraftSaved(id, now)) &&
             drafts == Upserted(old(drafts), NewDraft(id, sessionId, formId, answers, currentStep, userAgent, ipAddress, now)) &&
             nextId == NextIdAfter(old(drafts), old(nextId), sessionId)
    {
      var check := CheckSessionIdTs(sessionId);
      if check.Fail? {
        return Failure(check.error);
      }
      var id := DraftIdFor(drafts, nextId, sessionId);
      var draft := NewDraft(id, sessionId, formId, answers, currentStep, userAgent, ipAddress, now);
      var failure := Upsert(draft, fault);
      if failure.Some? {
        return Success(TsSaveFault(failure.value));
      }
      r := Success(DraftSaved(id, now));
    }

    /** `getDraft(sessionId)` of the CommonJS tree; `fails` is a failing store read. */
    method GetDraft(sessionId: Value, now: int, fails: bool) returns (r: Result<Option<DraftView>, HttpError>)
      requires Valid()
      ensures r.Success? && r.value.Some? ==> sessionId.Str? && r.value.value.sessionId == sessionId.s
      ensures CheckSessionId(sessionId).Fail? ==> r == Failure(BadRequest(InvalidSessionId))
      ensures CheckSessionId(sessionId).Pass? && fails ==> r == Failure(Internal("Failed to retrieve draft"))
      ensures CheckSessionId(sessionId).Pass? && !fails ==> r == Success(LiveDraft(drafts, sessionId.s, now))
    {
      var check := CheckSessionId(sessionId);
      if check.Fail? {
        return Failure(check.error);
      }
      if fails {
        return Failure(Internal("Failed to retrieve draft"));
      }
      r := Success(LiveDraft(drafts, sessionId.s, now));
    }

    /** `getDraft(sessionId)` of the TypeScript tree: a failing store read becomes a 404. */
    method GetDraftTs(sessionId: string, now: int, fails: bool) returns (r: Result<Option<DraftView>, HttpError>)
      requires Valid()
      ensures r.Success? && r.value.Some? ==> r.value.value.sessionId == sessionId
      ensures CheckSessionIdTs(sessionId).Fail? ==> r == Failure(BadRequest(InvalidSessionId))
      ensures CheckSessionIdTs(sessionId).Pass? && fails ==> r == Failure(NotFound(DraftNotFound))
      ensures CheckSessionIdTs(sessionId).Pass? && !fails ==> r == Success(LiveDraft(drafts, sessionId, now))
    {
      var check := CheckSessionIdTs(sessionId);
      if check.Fail? {
        return Failure(check.error);
      }
      if fails {
        return Failure(NotFound(DraftNotFound));
      }
      r := Success(LiveDraft(drafts, sessionId, now));
    }

    /** `deleteDraft(sessionId)` of the CommonJS tree; `fails` is a failing store call. */
    method DeleteDraft(sessionId: Value, fails: bool) returns (r: Result<string, HttpError>)
      requires Valid()
      modifies this
      ensures Valid()
      ensures nextId == old(nextId)
      ensures CheckSessionId(sessionId).Fail? ==> r == Failure(BadRequest(InvalidSessionId)) && drafts == old(drafts)
      ensures CheckSessionId(sessionId).Pass? && fails ==> r == Failure(Internal("Failed to delete draft")) && drafts == old(drafts)
      ensures CheckSessionId(sessionId).Pass? && !fails ==>
        drafts == old(drafts) - {sessionId.s} &&
        r == if sessionId.s in old(drafts) then Success("Draft deleted successfully") else Failure(NotFound(DraftNotFound))
    {
      var check := CheckSessionId(sessionId);
      if check.Fail? {
        return Failure(check.error);
      }
      if fails {
        return Failure(Internal("Failed to delete draft"));
      }
      var deleted := DeleteOne(sessionId.s);
      if !deleted {
        return Failure(NotFound(DraftNotFound));
      }
      r := Success("Draft deleted successfully");
    }

    /** `deleteDraft(sessionId)` of the TypeScript tree. */
    method DeleteDraftTs(sessionId: string) returns (r: Result<string, HttpError>)
      requires Valid()
      modifies this
      ensures Valid()
      ensures nextId == old(nextId)
      ensures CheckSessionIdTs(sessionId).Fail? ==> r == Failure(BadRequest(InvalidSessionId)) && drafts == old(drafts)
      ensures CheckSessionIdTs(sessionId).Pass? ==>
        drafts == old(drafts) - {sessionId} &&
        r == if sessionId in old(drafts) then Success("Draft deleted successfully") else Failure(NotFound(DraftNotFound))
    {
      var check := CheckSessionIdTs(sessionId);
      if check.Fail? {
        return Failure(check.error);
      }
      var deleted := DeleteOne(sessionId);
      if !deleted {
        return Failure(NotFound(DraftNotFound));
      }
      r := Success("Draft deleted successfully");
    }

    /** The store's `deleteMany({ expiresAt: { $lt: now } })`: how many drafts went. */
    method DeleteExpired(now: int) returns (count: nat)
      requires Valid()
      modifies this
      ensures Valid()
      ensures drafts == old(drafts) - ExpiredAt(old(drafts), now) && nextId == old(nextId)
      ensures count == |ExpiredAt(old(drafts), now)|
    {
      var expired := ExpiredAt(drafts, now);
      count := |expired|;
      drafts := drafts - expired;
    }

    /** `cleanupExpiredDrafts()` of the CommonJS tree; `fails` is a failing store call. */
    method CleanupExpiredDrafts(now: int, fails: bool) returns (r: Result<CleanupReply, HttpError>)
      requires Valid()
      modifies this
      ensures Valid()
      ensures nextId == old(nextId)
      ensures fails ==> r == Failure(Internal("Failed to cleanup expired drafts")) && drafts == old(drafts)
      ensures !fails ==>
        var n := |ExpiredAt(old(drafts), now)|;
        r == Success(Cleaned(n, CleanupMessage(n))) && drafts == old(drafts) - ExpiredAt(old(drafts), now)
    {
      if fails {
        return Failure(Internal("Failed to cleanup expired drafts"));
      }
      var count := DeleteExpired(now);
      r := Success(Cleaned(count, CleanupMessage(count)));
    }

    /** `cleanupExpiredDrafts()` of the TypeScript tree: a failure is reported as zero deletions. */
    method CleanupExpiredDraftsTs(now: int, fails: bool) returns (r: CleanupReply)
      requires Valid()
      modifies this
      ensures Valid()
      ensures nextId == old(nextId)
      ensures fails ==> r == Cleaned(0, "Failed to cleanup expired drafts") && drafts == old(drafts)
      ensures !fails ==>
        var n := |ExpiredAt(old(drafts), now)|;
        r == Cleaned(n, CleanupMessage(n)) && drafts == old(drafts) - ExpiredAt(old(drafts), now)
    {
      if fails {
        return Cleaned(0, "Failed to cleanup expired drafts");
      }
      var count := DeleteExpired(now);
      r := Cleaned(count, CleanupMessage(count));
    }

    /**
     * The store's aggregate over the drafts that are live at `now` (and of
     * `formId` when it is truthy): their number and the oldest and newest
     * `lastModified`; with none, the zero record.
     */
    method DraftStatistics(formId: Value, now: int) returns (stats: DraftStats)
      ensures StatsDescribe(stats, drafts, formId, now)
    {
      var ds := drafts;
      var todo := ds.Keys;
      ghost var done: set<string> := {};
      var acc := DraftStats(0, None, None);
      while todo != {}
        invariant done <= ds.Keys && todo == ds.Keys - done
        invariant Tally(acc, ds, formId, now, done)
        decreases todo
      {
        var k :| k in todo;
        TallyStep(acc, ds, formId, now, done, k);
        acc := if Counted(ds[k], formId, now) then AddDraft(acc, ds[k]) else acc;
        todo := todo - {k};
        done := done + {k};
      }
      TallyComplete(acc, ds, formId, now, done);
      stats := acc;
    }

    /** `getDraftStatistics(formId)` of the CommonJS tree; `fails` is a failing aggregate. */
    method GetDraftStatistics(formId: Value, now: int, fails: bool) returns (r: Result<DraftStats, HttpError>)
      ensures fails ==> r == Failure(Internal("Failed to get draft statistics"))
      ensures !fails ==> r.Success? && StatsDescribe(r.value, drafts, formId, now)
    {
      if fails {
        return Failure(Internal("Failed to get draft statistics"));
      }
      var stats := DraftStatistics(formId, now);
      r := Success(stats);
    }

    /** `getDraftStatistics(formId)` of the TypeScript tree: a failure is a plain `Error`. */
    method GetDraftStatisticsTs(formId: Value, now: int, fails: bool) returns (r: Result<DraftStats, HttpError>)
      ensures fails ==> r == Failure(Unhandled("Failed to get draft statistics"))
      ensures !fails ==> r.Success? && StatsDescribe(r.value, drafts, formId, now)
    {
      if fails {
        return Failure(Unhandled("Failed to get draft statistics"));
      }
      var stats := DraftStatistics(formId, now);
      r := Success(stats);
    }
  }

  // ---------------------------------------------------------------------------
  // The lifecycle, across operations
  // ---------------------------------------------------------------------------

  /**
   * Save then get: until it expires, a saved draft reads back with the step
   * it was saved with, and with the answers and form it was saved with, or
   * the stored ones where the save left those out; other sessions read as
   * before.
   */
  lemma SaveThenGet(drafts: map<string, Draft>, d: Draft, other: string, t: int)
    requires d.lastModified <= t < d.expiresAt
    requires other != d.sessionId
    ensures var view := LiveDraft(Upserted(drafts, d), d.sessionId, t);
      var had := d.sessionId in drafts;
      && view.Some?
      && view.value.sessionId == d.sessionId && view.value.currentStep == d.currentStep
      && view.value.lastModified == d.lastModified && view.value.expiresAt == d.expiresAt
      && view.value.formId == (if d.formId.Undefined? && had then drafts[d.sessionId].formId else d.formId)
      && view.value.answers == (if d.answers.Undefined? && had then drafts[d.sessionId].answers else d.answers)
    ensures LiveDraft(Upserted(drafts, d), other, t) == LiveDraft(drafts, other, t)
  {
  }

  /** A saved draft is live for seven days, and no longer. */
  lemma DraftExpiresAfterSevenDays(drafts: map<string, Draft>, id: nat, sessionId: string, formId: Value, answers: Value,
                                   step: Number, userAgent: Option<string>, ipAddress: Option<string>, now: int)
    ensures var after := Upserted(drafts, NewDraft(id, sessionId, formId, answers, step, userAgent, ipAddress, now));
      && LiveDraft(after, sessionId, now + DraftLifetimeMs - 1).Some?
      && LiveDraft(after, sessionId, now + DraftLifetimeMs).None?
      && LiveDraft(after, sessionId, now + DraftLifetimeMs - 1).value.answers ==
           (if answers.Undefined? && sessionId in drafts then drafts[sessionId].answers else answers)
  {
  }

  /** After a delete the session has no draft to read. */
  lemma DeleteThenGet(drafts: map<string, Draft>, sessionId: string, t: int)
    ensures LiveDraft(drafts - {sessionId}, sessionId, t).None?
  {
  }

  /**
   * The sweep deletes exactly the drafts that expired before `now`: a second
   * sweep at the same instant deletes nothing, and a draft expiring at `now`
   * itself survives the sweep although `getDraft` no longer returns it.
   */
  lemma SweepIsExact(drafts: map<string, Draft>, now: int, k: string)
    ensures ExpiredAt(drafts - ExpiredAt(drafts, now), now) == {}
    ensures k in drafts && drafts[k].expiresAt == now ==>
      k in drafts - ExpiredAt(drafts, now) && LiveDraft(drafts - ExpiredAt(drafts, now), k, now).None?
    ensures k in drafts && drafts[k].expiresAt > now ==>
      LiveDraft(drafts - ExpiredAt(drafts, now), k, now) == LiveDraft(drafts, k, now)
  {
  }

  /** The sweep's count is the number of drafts that were there minus those that remain. */
  lemma SweepCount(drafts: map<string, Draft>, now: int)
    ensures |ExpiredAt(drafts, now)| + |(drafts - ExpiredAt(drafts, now)).Keys| == |drafts.Keys|
  {
    var gone := ExpiredAt(drafts, now);
    assert (drafts - gone).Keys == drafts.Keys - gone;
    assert gone <= drafts.Keys;
    assert drafts.Keys == gone + (drafts.Keys - gone);
  }
}
