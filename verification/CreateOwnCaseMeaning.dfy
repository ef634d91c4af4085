/** What `createOwnCase` makes of a request: the words of its texts, its own dates and priority, each in
    its own place, in the plan and in the rows that a run leaves. */
module CreateOwnCaseMeaning {
  import opened Common
  import opened CreateOwnCase
  import opened CreateOwnCaseRuns

  // ---- Words ----

  predicate Blank(s: string) {
    forall i :: 0 <= i < |s| ==> IsSpace(s[i])
  }

  predicate Solid(s: string) {
    s != "" && forall i :: 0 <= i < |s| ==> !IsSpace(s[i])
  }

  /** Where the first word of a text that starts with one ends. */
  function WordEnd(s: string): (n: nat)
    ensures n <= |s| && (forall i :: 0 <= i < n ==> !IsSpace(s[i])) && (n < |s| ==> IsSpace(s[n]))
  {
    if s == "" || IsSpace(s[0]) then 0 else 1 + WordEnd(s[1..])
  }

  /** The words of a text: its longest stretches without white space. */
  function Words(s: string): (words: seq<string>)
    ensures forall i :: 0 <= i < |words| ==> Solid(words[i])
    decreases |s|
  {
    if s == "" then []
    else if IsSpace(s[0]) then Words(s[1..])
    else [s[..WordEnd(s)]] + Words(s[WordEnd(s)..])
  }

  /** The words with one blank between them. */
  function Spaced(s: string): string {
    Join(Words(s), " ")
  }

  // ---- Normalised texts ----

  lemma {:induction false} BlankHasNoWords(s: string)
    requires Blank(s)
    ensures Words(s) == []
  {
    if s != "" {
      BlankHasNoWords(s[1..]);
    }
  }

  lemma {:induction false} TrimStartKeepsWords(s: string)
    ensures Words(TrimStart(s)) == Words(s)
    ensures TrimStart(s) != "" ==> !IsSpace(TrimStart(s)[0])
    ensures |TrimStart(s)| <= |s| && (TrimStart(s) == "" <==> Blank(s))
    ensures TrimStart(s) != "" ==> TrimStart(s)[|TrimStart(s)| - 1] == s[|s| - 1]
  {
    if s != "" && IsSpace(s[0]) {
      TrimStartKeepsWords(s[1..]);
      assert Blank(s) <==> Blank(s[1..]);
    }
  }

  lemma {:induction false} SpaceBehind(s: string, c: char)
    requires IsSpace(c)
    ensures Words(s + [c]) == Words(s)
    decreases |s|
  {
    if s == "" {
      assert (s + [c])[1..] == "";
    } else if IsSpace(s[0]) {
      assert (s + [c])[1..] == s[1..] + [c];
      SpaceBehind(s[1..], c);
    } else {
      var n := WordEnd(s);
      WordEndStays(s, c);
      assert (s + [c])[..n] == s[..n] && (s + [c])[n..] == s[n..] + [c];
      SpaceBehind(s[n..], c);
    }
  }

  lemma {:induction false} WordEndStays(s: string, c: char)
    requires IsSpace(c)
    ensures WordEnd(s + [c]) == WordEnd(s)
  {
    if s != "" && !IsSpace(s[0]) {
      assert (s + [c])[1..] == s[1..] + [c];
      WordEndStays(s[1..], c);
    }
  }

  lemma {:induction false} TrimEndKeepsWords(s: string)
    ensures Words(TrimEnd(s)) == Words(s)
    ensures TrimEnd(s) <= s && (TrimEnd(s) != "" ==> !IsSpace(TrimEnd(s)[|TrimEnd(s)| - 1]))
  {
    if s != "" && IsSpace(s[|s| - 1]) {
      TrimEndKeepsWords(s[..|s| - 1]);
      SpaceBehind(s[..|s| - 1], s[|s| - 1]);
      assert s == s[..|s| - 1] + [s[|s| - 1]];
    }
  }

  /** No white space at either end. */
  predicate Trimmed(s: string) {
    s != "" ==> !IsSpace(s[0]) && !IsSpace(s[|s| - 1])
  }

  lemma TrimKeepsWords(s: string)
    ensures Words(Trim(s)) == Words(s) && Trimmed(Trim(s))
  {
    TrimStartKeepsWords(s);
    TrimEndKeepsWords(TrimStart(s));
  }

  lemma {:induction false} CollapseWord(word: string, rest: string)
    requires Solid(word) && (rest == "" || IsSpace(rest[0]))
    ensures Collapse(word + rest) == word + Collapse(rest)
  {
    if |word| == 1 {
      assert (word + rest)[1..] == rest;
    } else {
      assert (word + rest)[1..] == word[1..] + rest;
      CollapseWord(word[1..], rest);
    }
  }

  /** White space in front of more text becomes one blank. */
  lemma {:induction false} CollapseSpace(rest: string)
    requires rest != "" && IsSpace(rest[0]) && !Blank(rest)
    ensures Collapse(rest) == " " + Collapse(TrimStart(rest))
  {
    assert |rest| == 1 ==> Blank(rest);
    if IsSpace(rest[1]) {
      assert Blank(rest[1..]) ==> Blank(rest);
      CollapseSpace(rest[1..]);
    }
  }

  lemma {:induction false} CollapseIsSpaced(s: string)
    requires Trimmed(s)
    ensures Collapse(s) == Spaced(s)
    decreases |s|
  {
    if s == "" {
      CollapseNothing();
    } else {
      hide Collapse, TrimStart, Join, Blank;
      var n := WordEnd(s);
      var word, rest := s[..n], s[n..];
      assert s == word + rest && n > 0;
      CollapseWord(word, rest);
      if rest == "" {
        CollapseNothing();
        assert Words(s) == [word];
        JoinFirst(word, []);
      } else {
        RestIsSpaced(s, n);
        CollapseSpace(rest);
        TrimStartKeepsWords(rest);
        CollapseIsSpaced(TrimStart(rest));
        FirstWord(s);
        hide Words, WordEnd;
        JoinFirst(word, Words(rest));
      }
    }
  }

  lemma JoinFirst(word: string, words: seq<string>)
    ensures Join([word] + words, " ") == if words == [] then word else word + " " + Join(words, " ")
  {
    assert ([word] + words)[1..] == words;
  }

  lemma CollapseNothing()
    ensures Collapse("") == "" && Spaced("") == ""
  {
  }

  lemma RestIsSpaced(s: string, n: nat)
    requires Trimmed(s) && n < |s| && IsSpace(s[n])
    ensures !Blank(s[n..]) && s[n..][|s[n..]| - 1] == s[|s| - 1]
  {
    assert s[n..][|s[n..]| - 1] == s[|s| - 1];
  }

  /** A text that starts with a word, and has more behind it. */
  lemma {:induction false} FirstWord(s: string)
    requires Trimmed(s) && s != "" && WordEnd(s) < |s|
    ensures var rest := s[WordEnd(s)..];
            Words(s) == [s[..WordEnd(s)]] + Words(rest) && Words(s)[1..] == Words(rest) && Words(rest) != []
  {
    var rest := s[WordEnd(s)..];
    RestIsSpaced(s, WordEnd(s));
    TrimStartKeepsWords(rest);
    SolidHasWords(TrimStart(rest));
  }

  lemma SolidHasWords(s: string)
    requires s != "" && !IsSpace(s[0])
    ensures Words(s) != []
  {
  }

  /** Normalising keeps the words of a text, with one blank between them and none at the ends. */
  lemma NormalizedIsSpaced(s: string)
    ensures NormalizeRequiredText(s) == Spaced(s)
    ensures NormalizeRequiredText(s) == "" <==> Words(s) == []
  {
    TrimKeepsWords(s);
    CollapseIsSpaced(Trim(s));
    hide Words, Collapse, Trim;
  }

  // ---- The plan of a request ----

  function InstantOf(due: Option<DueText>): Option<Time> {
    match due case None => None case Some(text) => text.at
  }

  /** The case that a request asks for: its own words, dates and priority, opened by its own membership. */
  function CaseFor(r: Request, ids: Identity): Case
    requires r.membership.Some?
  {
    Case(id := ids.caseId, organizationId := r.organizationId, title := Spaced(r.title), description := Spaced(r.description),
         priority := r.priority, dueAt := InstantOf(r.dueAt), status := Open, createdBy := r.membership.value,
         primaryResponsibility := Some(ids.responsibilityId), currentWork := Some(ids.actionId), createdAt := r.now)
  }

  /** Its responsibility, taken and accepted by the same membership at once. */
  function ResponsibilityFor(r: Request, ids: Identity): Responsibility
    requires r.membership.Some?
  {
    var me := r.membership.value;
    Responsibility(id := ids.responsibilityId, caseId := ids.caseId, organizationId := r.organizationId, target := MembershipTarget(me),
                   assignedBy := me, status := Accepted, mode := SelfMode, role := Primary, acceptedBy := Some(me),
                   acceptedAt := Some(r.now), createdAt := r.now)
  }

  function ActionFor(r: Request, ids: Identity): CreateOwnCase.Action
    requires r.membership.Some?
  {
    var me := r.membership.value;
    Action(id := ids.actionId, caseId := ids.caseId, organizationId := r.organizationId, source := Some(ids.responsibilityId),
           responsible := MembershipTarget(me), createdBy := me, kind := Primary, parent := None, title := Spaced(r.actionTitle),
           dueAt := InstantOf(r.actionDueAt), status := Pending, createdAt := r.now)
  }

  predicate HasInstant(due: Option<DueText>) {
    due.None? || due.value.at.Some?
  }

  /** The first thing wrong with a request, if anything is. */
  function Fault(r: Request): Option<DomainError> {
    if Words(r.actionTitle) == [] then Some(InvalidActionTitle)
    else if !HasInstant(r.actionDueAt) then Some(InvalidTimestamp)
    else if Words(r.title) == [] then Some(InvalidCaseTitle)
    else if Words(r.description) == [] then Some(InvalidCaseDescription)
    else if r.priority !in {"low", "normal", "high"} then Some(InvalidCasePriority)
    else if !HasInstant(r.dueAt) then Some(InvalidTimestamp)
    else None
  }

  /** A request is planned iff its texts have words, its dates can be read and its priority is known, and
      then the plan is what it asks for. */
  lemma PlanIsForRequest(r: Request, ids: Identity)
    requires r.membership.Some?
    ensures PlanCreateOwnCase(r, ids) ==
            if Fault(r).Some? then Err(Fault(r).value) else Ok(Plan(CaseFor(r, ids), ResponsibilityFor(r, ids), ActionFor(r, ids)))
  {
    NormalizedIsSpaced(r.title);
    NormalizedIsSpaced(r.description);
    NormalizedIsSpaced(r.actionTitle);
    hide NormalizeRequiredText, Spaced, Words;
  }

  // ---- The answer and the rows of a request ----

  function DateJson(due: Option<DueText>): Json {
    match InstantOf(due) case None => Null case Some(at) => Number(at)
  }

  function AnswerFor(r: Request, ids: Identity): Stored {
    Stored(caseId := ids.caseId, title := Spaced(r.title), priority := r.priority, dueAt := DateJson(r.dueAt),
           responsibilityId := ids.responsibilityId, actionId := ids.actionId, actionTitle := Spaced(r.actionTitle),
           actionDueAt := DateJson(r.actionDueAt))
  }

  /** The rows of the request are there; a case row has no columns for responsibility and current work. */
  ghost predicate HasRowsFor(t: Tables, r: Request, ids: Identity) {
    && r.membership.Some?
    && ids.caseId in t.cases && t.cases[ids.caseId] == CaseFor(r, ids).(primaryResponsibility := None, currentWork := None)
    && ids.responsibilityId in t.responsibilities && t.responsibilities[ids.responsibilityId] == ResponsibilityFor(r, ids)
    && ids.actionId in t.actions && t.actions[ids.actionId] == ActionFor(r, ids)
    && ids.caseId in t.currentWork && t.currentWork[ids.caseId] == ids.actionId
  }

  /** Two requests say the same if their texts agree up to white space at the ends and everything else agrees. */
  predicate SayTheSame(r: Request, q: Request) {
    && Trim(r.title) == Trim(q.title) && Trim(r.description) == Trim(q.description) && Trim(r.actionTitle) == Trim(q.actionTitle)
    && r.priority == q.priority && r.dueAt == q.dueAt && r.actionDueAt == q.actionDueAt
  }

  lemma FingerprintIff(r: Request, q: Request)
    ensures RequestFingerprint(r) == RequestFingerprint(q) <==> SayTheSame(r, q)
  {
    hide Trim;
  }

  /** No row has one of the identifiers, and no current work belongs to the case. */
  predicate Unused(t: Tables, ids: Identity) {
    ids.caseId !in t.cases && ids.caseId !in t.currentWork && ids.responsibilityId !in t.responsibilities && ids.actionId !in t.actions
  }

  /** When the command ends how, for a key that is new. */
  lemma NewKeyIsAnswered(t: Tables, r: Request, ids: Identity)
    requires Key(r.organizationId, r.token) !in t.idempotency
    ensures var (after, outcome) := Atomic(t, r, ids);
            && (r.membership.None? ==> after == t && outcome == Denied)
            && (r.membership.Some? && (Fault(r).Some? || !Unused(t, ids)) ==> after == t && outcome == Failed)
            && (r.membership.Some? && Fault(r).None? && Unused(t, ids) ==>
                  outcome == Created(AnswerFor(r, ids), false) && HasRowsFor(after, r, ids))
  {
    hide PlanCreateOwnCase, RequestFingerprint, ResultSnapshot, Fault, Spaced, AnswerFor, HasRowsFor, CaseFor, ResponsibilityFor, ActionFor;
    if r.membership.Some? {
      PlanIsForRequest(r, ids);
      if Fault(r).None? {
        PlanSays(t, r, ids, Plan(CaseFor(r, ids), ResponsibilityFor(r, ids), ActionFor(r, ids)));
      }
    }
  }

  lemma PlanSays(t: Tables, r: Request, ids: Identity, plan: Plan)
    requires r.membership.Some? && plan == Plan(CaseFor(r, ids), ResponsibilityFor(r, ids), ActionFor(r, ids))
    ensures StoredOf(plan) == AnswerFor(r, ids)
    ensures HasRowsFor(WithPlan(t, plan).(idempotency := t.idempotency[KeyOf(r) := CompletedRow(r, plan)]), r, ids)
  {
    hide RequestFingerprint, ResultSnapshot, Spaced;
  }

  /** When the command ends how, for a key that has succeeded before. */
  lemma KnownKeyIsAnswered(t: Tables, first: Request, result: Stored, r: Request, ids: Identity)
    requires Remembers(t, first, result) && KeyOf(r) == KeyOf(first)
    ensures Atomic(t, r, ids) == (t, if r.membership.None? then Denied else if SayTheSame(r, first) then Created(result, true) else Conflict)
  {
    FingerprintIff(r, first);
    hide RequestFingerprint, ReadStoredResult, PlanCreateOwnCase, SayTheSame;
  }

  // ---- Callers that nothing disturbs ----

  function CallerMoves(id: TxId, r: Request, ids: Identity): seq<Move> {
    [Move(id, Begin(r, ids)), Move(id, Select), Move(id, Reserve), Move(id, InsertPlanRows), Move(id, Complete), Move(id, Commit(true))]
  }

  /** Nobody has locked or reserved the key, and no uncommitted row has one of the identifiers. */
  ghost predicate Unhindered(s: State, r: Request, ids: Identity) {
    var key := Key(r.organizationId, r.token);
    && key !in s.committed.idempotency && key !in s.locks && Unused(s.committed, ids)
    && forall other :: other in s.live ==> !HoldsKey(s.live[other], key) && (HasRows(s.live[other]) ==> !Overlap(s.live[other].ids, ids))
  }

  function With(s: State, id: TxId, r: Request, ids: Identity, phase: Phase): State {
    s.(live := s.live[id := Tx(r, ids, phase)])
  }

  lemma CallerReserves(s: State, id: TxId, r: Request, ids: Identity)
    requires id !in s.live && r.membership.Some? && Unhindered(s, r, ids)
    ensures Enabled(s, id, Begin(r, ids)) && Step(s, id, Begin(r, ids)) == With(s, id, r, ids, Begun)
    ensures Enabled(With(s, id, r, ids, Begun), id, Select) && Step(With(s, id, r, ids, Begun), id, Select) == With(s, id, r, ids, Absent)
    ensures Enabled(With(s, id, r, ids, Absent), id, Reserve) && Step(With(s, id, r, ids, Absent), id, Reserve) == With(s, id, r, ids, Reserved)
  {
    hide Unused, PlanCreateOwnCase, Overlap;
  }

  lemma CallerInserts(s: State, id: TxId, r: Request, ids: Identity, plan: Plan)
    requires id !in s.live && r.membership.Some? && Unhindered(s, r, ids) && PlanCreateOwnCase(r, ids) == Ok(plan)
    ensures Enabled(With(s, id, r, ids, Reserved), id, InsertPlanRows)
    ensures Step(With(s, id, r, ids, Reserved), id, InsertPlanRows) == With(s, id, r, ids, Planned(plan))
    ensures Enabled(With(s, id, r, ids, Planned(plan)), id, Complete)
    ensures Step(With(s, id, r, ids, Planned(plan)), id, Complete) == With(s, id, r, ids, Finished(plan))
  {
    hide PlanCreateOwnCase, Overlap;
  }

  lemma CallerCommits(s: State, id: TxId, r: Request, ids: Identity, plan: Plan)
    requires id !in s.live && forall key :: key in s.locks ==> s.locks[key] != id
    requires r.membership.Some? && plan == Plan(CaseFor(r, ids), ResponsibilityFor(r, ids), ActionFor(r, ids))
    ensures var finished := With(s, id, r, ids, Finished(plan));
            && Enabled(finished, id, Commit(true))
            && var after := Step(finished, id, Commit(true));
               && after.log == s.log + [Event(r, ids, Created(AnswerFor(r, ids), false), true)] && HasRowsFor(after.committed, r, ids)
               && after.live == s.live && after.locks == s.locks
  {
    hide ResultSnapshot, RequestFingerprint, Spaced;
    var finished := With(s, id, r, ids, Finished(plan));
    assert finished.live - {id} == s.live;
    assert (map key | key in s.locks && s.locks[key] != id :: s.locks[key]) == s.locks;
  }

  /** These moves can be made one after the other, and end there. */
  ghost predicate Leads(s: State, moves: seq<Move>, after: State)
    decreases |moves|
  {
    if moves == [] then s == after
    else Enabled(s, moves[0].id, moves[0].action) && Leads(Step(s, moves[0].id, moves[0].action), moves[1..], after)
  }

  lemma LeadsOn(s: State, move: Move, next: State, moves: seq<Move>, after: State)
    requires Enabled(s, move.id, move.action) && Step(s, move.id, move.action) == next && Leads(next, moves, after)
    ensures Leads(s, [move] + moves, after)
  {
    hide Enabled, Step;
    assert ([move] + moves)[1..] == moves;
  }

  /** A request on a new key goes through, whatever others are doing. */
  lemma UndisturbedCaller(s: State, id: TxId, r: Request, ids: Identity) returns (after: State)
    requires id !in s.live && r.membership.Some? && Fault(r) == None && Unhindered(s, r, ids)
    requires forall key :: key in s.locks ==> s.locks[key] in s.live
    ensures Leads(s, CallerMoves(id, r, ids), after)
    ensures after.log == s.log + [Event(r, ids, Created(AnswerFor(r, ids), false), true)]
    ensures HasRowsFor(after.committed, r, ids) && after.live == s.live && after.locks == s.locks
  {
    PlanIsForRequest(r, ids);
    var plan := Plan(CaseFor(r, ids), ResponsibilityFor(r, ids), ActionFor(r, ids));
    CallerReserves(s, id, r, ids);
    CallerInserts(s, id, r, ids, plan);
    CallerCommits(s, id, r, ids, plan);
    after := Step(With(s, id, r, ids, Finished(plan)), id, Commit(true));
    LeadsNowhere(after);
    var committing := [Move(id, Commit(true))] + [];
    var completing := [Move(id, Complete)] + committing;
    var inserting := [Move(id, InsertPlanRows)] + completing;
    var reserving := [Move(id, Reserve)] + inserting;
    var selecting := [Move(id, Select)] + reserving;
    assert CallerMoves(id, r, ids) == [Move(id, Begin(r, ids))] + selecting;
    hide *;
    LeadsOn(With(s, id, r, ids, Finished(plan)), Move(id, Commit(true)), after, [], after);
    LeadsOn(With(s, id, r, ids, Planned(plan)), Move(id, Complete), With(s, id, r, ids, Finished(plan)), committing, after);
    LeadsOn(With(s, id, r, ids, Reserved), Move(id, InsertPlanRows), With(s, id, r, ids, Planned(plan)), completing, after);
    LeadsOn(With(s, id, r, ids, Absent), Move(id, Reserve), With(s, id, r, ids, Reserved), inserting, after);
    LeadsOn(With(s, id, r, ids, Begun), Move(id, Select), With(s, id, r, ids, Absent), reserving, after);
    LeadsOn(s, Move(id, Begin(r, ids)), With(s, id, r, ids, Begun), selecting, after);
  }

  lemma LeadsNowhere(s: State)
    ensures Leads(s, [], s)
  {
  }

  lemma RowsStay(mid: Tables, e: Event, after: Tables, r: Request, ids: Identity)
    requires Explains(mid, e, after) && HasRowsFor(mid, r, ids)
    ensures HasRowsFor(after, r, ids)
  {
    if e.outcome != Failed && e.request.membership.Some? && PlanCreateOwnCase(e.request, e.ids).Ok? {
      PlanIds(e.request, e.ids);
    }
    hide PlanCreateOwnCase, RequestFingerprint, ResultSnapshot, CaseFor, ResponsibilityFor, ActionFor;
  }

  /** Over a serial run, every fresh answer says what its request asked for, and the rows that it left
      still do. */
  lemma {:induction false} FreshAnswersSayTheRequest(before: Tables, log: seq<Event>, after: Tables, i: nat)
    requires Serial(before, log, after) && i < |log| && log[i].outcome.Created? && !log[i].outcome.replayed
    ensures Fault(log[i].request) == None && log[i].outcome.result == AnswerFor(log[i].request, log[i].ids)
    ensures HasRowsFor(after, log[i].request, log[i].ids)
    decreases |log|
  {
    var front, e := log[..|log| - 1], log[|log| - 1];
    var mid := Replay(before, front);
    hide Atomic, HasRowsFor, Fault, AnswerFor;
    if i < |front| {
      assert front[i] == log[i];
      FreshAnswersSayTheRequest(before, front, mid, i);
      RowsStay(mid, e, after, log[i].request, log[i].ids);
    } else {
      FreshIsNewKey(mid, e.request, e.ids);
      NewKeyIsAnswered(mid, e.request, e.ids);
    }
  }

  lemma FreshIsNewKey(t: Tables, r: Request, ids: Identity)
    requires Atomic(t, r, ids).1.Created? && !Atomic(t, r, ids).1.replayed
    ensures Key(r.organizationId, r.token) !in t.idempotency
  {
    hide PlanCreateOwnCase, ReadStoredResult;
  }

  /** The same for every interleaving of concurrent callers, with answers to COMMIT lost anywhere. */
  lemma CreatedCasesSayTheRequest(initial: Tables, states: seq<State>, moves: seq<Move>, k: nat, i: nat)
    requires IsRun(states, moves) && states[0] == State(initial, map[], map[], []) && k < |states| && i < |states[k].log|
    requires states[k].log[i].outcome.Created? && !states[k].log[i].outcome.replayed
    ensures var e := states[k].log[i];
            && Fault(e.request) == None && e.outcome.result == AnswerFor(e.request, e.ids)
            && HasRowsFor(states[k].committed, e.request, e.ids)
  {
    InterleavingsAreSerial(initial, states, moves, k);
    hide IsRun, HasRowsFor, Fault, AnswerFor;
    FreshAnswersSayTheRequest(initial, states[k].log, states[k].committed, i);
  }
}
