/** The stage publication tool, tools/verification/publish.ts, run from any number of clones
    against one remote that other people push to. A process may stop after any step. Checks that
    read only the clone's own files and refs are one step: nobody else writes those. */
module Publication {
  import opened Common

  /** A commit is its parents and what distinguishes it from other commits on them. */
  datatype Commit = Commit(parents: seq<Commit>, nonce: nat)

  ghost predicate Ancestor(a: Commit, c: Commit)
    decreases c
  {
    a == c || exists i :: 0 <= i < |c.parents| && Ancestor(a, c.parents[i])
  }

  lemma {:induction false} AncestorTransitive(a: Commit, b: Commit, c: Commit)
    requires Ancestor(a, b) && Ancestor(b, c)
    ensures Ancestor(a, c)
    decreases c
  {
    if b != c {
      var i :| 0 <= i < |c.parents| && Ancestor(b, c.parents[i]);
      AncestorTransitive(a, b, c.parents[i]);
    }
  }

  /** An annotated tag object; two clones never make the same one for the same commit. */
  datatype Tag = Tag(target: Commit, nonce: nat)

  datatype Remote = Remote(main: Commit, tag: Option<Tag>)

  datatype Phase =
    | Idle
    | Prepared | Fetched | TagAbsent       // up to the closure commit
    | Committed(technical: Commit)
    | ReadyToPush(retry: bool)             // the local tag exists
    | Pushed(retry: bool) | MainSeen(retry: bool) | BothSeen(retry: bool)
    | RetryChecked | RetryFetched | RetryMainRead(main: Commit)

  /** `prepared`: exactly the closure documents are staged; `documents`: their content is right;
      `report`: the commit that the latest stage report verified, with result PASS. */
  datatype Clone = Clone(onMain: bool, head: Commit, tag: Option<Tag>, tracking: Commit, prepared: bool, nothingStaged: bool,
                         dirty: bool, documents: bool, report: Option<Commit>, phase: Phase)

  type Id = nat

  /** `verified` collects the commits that a stage report has verified, `passes` the closure
      commits for which PASS was printed. */
  datatype State = State(remote: Remote, clones: map<Id, Clone>, verified: set<Commit>, passes: seq<Commit>)

  predicate Clean(clone: Clone) {
    clone.nothingStaged && !clone.dirty
  }

  function Peeled(tag: Option<Tag>): Option<Commit> {
    if tag.Some? then Some(tag.value.target) else None
  }

  /** `git push --atomic` of HEAD and the tag, without force. */
  ghost predicate Accepts(remote: Remote, k: Clone) {
    k.tag.Some? && Ancestor(remote.main, k.head) && (remote.tag == None || remote.tag == k.tag)
  }

  /** The effect of one step of the process: on its clone, on the remote, and whether it printed PASS. */
  datatype Effect = Effect(clone: Clone, remote: Remote, pass: bool)

  function Go(remote: Remote, k: Clone, phase: Phase): Effect {
    Effect(k.(phase := phase), remote, false)
  }

  /** `git fetch`: it also brings tags that point into what is fetched, but moves none. */
  function Fetch(remote: Remote, k: Clone): Clone {
    k.(tracking := remote.main, tag := if k.tag == None then remote.tag else k.tag)
  }

  /** `publishStageClosure` up to its first look at the remote, and the local checks of the retry. */
  function Start(remote: Remote, k: Clone): Effect {
    if !k.onMain then Go(remote, k, Idle)
    else if k.tag.Some? then
      if k.tag.value.target == k.head && Clean(k) && k.documents then Go(remote, k, RetryChecked) else Go(remote, k, Idle)
    else if k.prepared && !k.dirty && k.documents && k.report == Some(k.head) then Go(remote, k, Prepared)
    else Go(remote, k, Idle)
  }

  /** The next step of a process in clone `k`; a check that fails ends the process. */
  ghost function React(remote: Remote, k: Clone, nonce: nat): Effect {
    match k.phase
    case Idle => Start(remote, k)
    case Prepared => Go(remote, Fetch(remote, k), Fetched)
    case Fetched => Go(remote, k, if remote.tag.Some? then Idle else TagAbsent)
    case TagAbsent =>
      if Ancestor(k.tracking, k.head) && !Ancestor(k.head, k.tracking)
      then Go(remote, k.(head := Commit([k.head], nonce), prepared := false, nothingStaged := true), Committed(k.head))
      else Go(remote, k, Idle)
    case Committed(_) => Go(remote, k.(tag := Some(Tag(k.head, nonce))), ReadyToPush(false))
    case ReadyToPush(retry) =>
      if (retry || k.documents) && Accepts(remote, k) then Go(Remote(k.head, k.tag), k, Pushed(retry)) else Go(remote, k, Idle)
    case Pushed(retry) => Go(remote, k, if remote.main == k.head then MainSeen(retry) else Idle)
    case MainSeen(retry) => Go(remote, k, if Peeled(remote.tag) == Some(k.head) then BothSeen(retry) else Idle)
    case BothSeen(retry) => Go(remote, k, Idle).(pass := retry || Clean(k))
    case RetryChecked => Go(remote, Fetch(remote, k), RetryFetched)
    case RetryFetched => Go(remote, k, RetryMainRead(remote.main))
    case RetryMainRead(main) =>
      if main == k.head && Peeled(remote.tag) == Some(k.head) then Go(remote, k, Idle).(pass := true)
      else if remote.tag.Some? && Peeled(remote.tag) != Some(k.head) then Go(remote, k, Idle)
      else if Ancestor(k.tracking, k.head) then Go(remote, k, ReadyToPush(true))
      else Go(remote, k, Idle)
  }

  /** Anything that can happen next. `LostPush` is a push that the remote carries out although the
      process sees it fail. A user works in a clone while no process runs there, where the tag comes
      only by a fetch and is not moved, and may dirty the tree at any time. */
  datatype Move =
    | Run(c: Id, nonce: nat)
    | Crash(c: Id)
    | LostPush(c: Id)
    | OthersPush(main: Commit)
    | UserWorks(c: Id, after: Clone)
    | UserVerifies(c: Id)
    | UserDirties(c: Id)

  ghost predicate Possible(s: State, move: Move) {
    match move
    case Run(c, _) => c in s.clones
    case Crash(c) => c in s.clones
    case LostPush(c) => c in s.clones && s.clones[c].phase.ReadyToPush? && Accepts(s.remote, s.clones[c])
    case OthersPush(main) => Ancestor(s.remote.main, main)
    case UserWorks(c, after) =>
      && c in s.clones && s.clones[c].phase == Idle && after.phase == Idle && after.report == s.clones[c].report
      && (after.tag == s.clones[c].tag || (s.clones[c].tag == None && after.tag == s.remote.tag))
    case UserVerifies(c) => c in s.clones && s.clones[c].phase == Idle
    case UserDirties(c) => c in s.clones
  }

  function Put(s: State, c: Id, effect: Effect): State
    requires c in s.clones
  {
    State(effect.remote, s.clones[c := effect.clone], s.verified, if effect.pass then s.passes + [s.clones[c].head] else s.passes)
  }

  ghost function Next(s: State, move: Move): State
    requires Possible(s, move)
  {
    match move
    case Run(c, nonce) => Put(s, c, React(s.remote, s.clones[c], nonce))
    case Crash(c) => Put(s, c, Go(s.remote, s.clones[c], Idle))
    case LostPush(c) => Put(s, c, Go(Remote(s.clones[c].head, s.clones[c].tag), s.clones[c], Idle))
    case OthersPush(main) => s.(remote := s.remote.(main := main))
    case UserWorks(c, after) => Put(s, c, Effect(after, s.remote, false))
    case UserVerifies(c) =>
      Put(s, c, Effect(s.clones[c].(report := Some(s.clones[c].head)), s.remote, false)).(verified := s.verified + {s.clones[c].head})
    case UserDirties(c) => Put(s, c, Effect(s.clones[c].(dirty := true), s.remote, false))
  }

  // ---- The invariant ----

  /** The commit was made by the tool on a commit that a stage report verified. */
  ghost predicate Closes(verified: set<Commit>, closure: Commit) {
    |closure.parents| == 1 && closure.parents[0] in verified
  }

  /** The closure is on the remote for good: its tag is set, and main contains it. */
  ghost predicate Published(remote: Remote, closure: Commit) {
    Peeled(remote.tag) == Some(closure) && Ancestor(closure, remote.main)
  }

  ghost predicate RemoteInv(verified: set<Commit>, remote: Remote) {
    remote.tag.Some? ==> Closes(verified, remote.tag.value.target) && Published(remote, remote.tag.value.target)
  }

  ghost predicate CloneInv(verified: set<Commit>, remote: Remote, k: Clone) {
    && (k.report.Some? ==> k.report.value in verified)
    && (k.tag.Some? ==> Closes(verified, k.tag.value.target))
    && match k.phase
       case Idle => true
       case Prepared => k.head in verified && k.tag == None
       case Fetched => k.head in verified && (k.tag == None || k.tag == remote.tag)
       case TagAbsent => k.head in verified && k.tag == None
       case Committed(technical) => Closes(verified, k.head) && k.head.parents[0] == technical && k.tag == None
       case ReadyToPush(_) => Peeled(k.tag) == Some(k.head)
       case Pushed(_) => Peeled(k.tag) == Some(k.head)
       case MainSeen(_) => Peeled(k.tag) == Some(k.head) && Ancestor(k.head, remote.main)
       case BothSeen(_) => Peeled(k.tag) == Some(k.head) && Published(remote, k.head)
       case RetryChecked => Peeled(k.tag) == Some(k.head)
       case RetryFetched => Peeled(k.tag) == Some(k.head)
       case RetryMainRead(main) => Peeled(k.tag) == Some(k.head) && Ancestor(main, remote.main)
  }

  ghost predicate Inv(s: State) {
    && (forall c :: c in s.clones ==> CloneInv(s.verified, s.remote, s.clones[c]))
    && RemoteInv(s.verified, s.remote)
    && (forall i :: 0 <= i < |s.passes| ==> Published(s.remote, s.passes[i]))
  }

  /** Before the stage is closed anywhere: no acceptance tag exists and no process runs. */
  ghost predicate Init(s: State) {
    && s.remote.tag == None && s.passes == []
    && forall c :: c in s.clones ==>
         && s.clones[c].tag == None && s.clones[c].phase == Idle
         && (s.clones[c].report.Some? ==> s.clones[c].report.value in s.verified)
  }

  lemma InitHolds(s: State)
    requires Init(s)
    ensures Inv(s)
  {
  }

  /** The remote moves forward only: main to a descendant, and the tag from nothing to a closure
      commit that main is set to in the same step. */
  ghost predicate RemoteForward(before: Remote, after: Remote) {
    && Ancestor(before.main, after.main)
    && (before.tag.Some? ==> after.tag == before.tag)
    && (before.tag == None && after.tag.Some? ==> after.main == after.tag.value.target)
  }

  lemma PublishedStays(before: Remote, after: Remote, closure: Commit)
    requires RemoteForward(before, after) && Published(before, closure)
    ensures Published(after, closure)
  {
    AncestorTransitive(closure, before.main, after.main);
  }

  /** What is known about a clone that does not move survives a forward step of the remote. */
  lemma CloneStays(verified: set<Commit>, later: set<Commit>, before: Remote, after: Remote, k: Clone)
    requires CloneInv(verified, before, k) && RemoteForward(before, after) && verified <= later
    ensures CloneInv(later, after, k)
  {
    match k.phase
    case MainSeen(_) => AncestorTransitive(k.head, before.main, after.main);
    case BothSeen(_) => PublishedStays(before, after, k.head);
    case RetryMainRead(main) => AncestorTransitive(main, before.main, after.main);
    case _ =>
  }

  /** A push that the remote accepts moves it forward, to a published closure. */
  lemma PushIsForward(verified: set<Commit>, remote: Remote, k: Clone)
    requires CloneInv(verified, remote, k) && Peeled(k.tag) == Some(k.head) && Accepts(remote, k)
    ensures RemoteForward(remote, Remote(k.head, k.tag)) && RemoteInv(verified, Remote(k.head, k.tag))
  {
  }

  /** A step keeps its clone and the remote in order, moves the remote forward only, and prints PASS
      only for a published HEAD. */
  ghost predicate StepInOrder(verified: set<Commit>, remote: Remote, head: Commit, e: Effect) {
    && CloneInv(verified, e.remote, e.clone) && RemoteInv(verified, e.remote) && RemoteForward(remote, e.remote)
    && (e.pass ==> Published(remote, head) && e.remote == remote)
  }

  lemma Unmoved(remote: Remote)
    ensures RemoteForward(remote, remote) && Ancestor(remote.main, remote.main)
  {
  }

  /** The phases up to the local tag. */
  lemma PublishingKeepsOrder(verified: set<Commit>, remote: Remote, k: Clone, nonce: nat)
    requires CloneInv(verified, remote, k) && RemoteInv(verified, remote)
    requires k.phase.Idle? || k.phase.Prepared? || k.phase.Fetched? || k.phase.TagAbsent? || k.phase.Committed?
    ensures StepInOrder(verified, remote, k.head, React(remote, k, nonce))
  {
    Unmoved(remote);
    hide Ancestor, RemoteForward, Published;
  }

  /** The push, and the reads that verify it. */
  lemma PushingKeepsOrder(verified: set<Commit>, remote: Remote, k: Clone, nonce: nat)
    requires CloneInv(verified, remote, k) && RemoteInv(verified, remote)
    requires k.phase.ReadyToPush? || k.phase.Pushed? || k.phase.MainSeen? || k.phase.BothSeen?
    ensures StepInOrder(verified, remote, k.head, React(remote, k, nonce))
  {
    Unmoved(remote);
    if k.phase.ReadyToPush? && Accepts(remote, k) {
      PushIsForward(verified, remote, k);
    }
    hide Ancestor, RemoteForward, RemoteInv, Closes;
  }

  /** The retry path. */
  lemma RetryKeepsOrder(verified: set<Commit>, remote: Remote, k: Clone, nonce: nat)
    requires CloneInv(verified, remote, k) && RemoteInv(verified, remote)
    requires k.phase.RetryChecked? || k.phase.RetryFetched? || k.phase.RetryMainRead?
    ensures StepInOrder(verified, remote, k.head, React(remote, k, nonce))
  {
    Unmoved(remote);
    hide Ancestor, RemoteForward, Closes;
  }

  lemma ReactKeepsOrder(verified: set<Commit>, remote: Remote, k: Clone, nonce: nat)
    requires CloneInv(verified, remote, k) && RemoteInv(verified, remote)
    ensures StepInOrder(verified, remote, k.head, React(remote, k, nonce))
  {
    hide React, CloneInv, RemoteInv, StepInOrder;
    match k.phase
    case ReadyToPush(_) => PushingKeepsOrder(verified, remote, k, nonce);
    case Pushed(_) => PushingKeepsOrder(verified, remote, k, nonce);
    case MainSeen(_) => PushingKeepsOrder(verified, remote, k, nonce);
    case BothSeen(_) => PushingKeepsOrder(verified, remote, k, nonce);
    case RetryChecked => RetryKeepsOrder(verified, remote, k, nonce);
    case RetryFetched => RetryKeepsOrder(verified, remote, k, nonce);
    case RetryMainRead(_) => RetryKeepsOrder(verified, remote, k, nonce);
    case _ => PublishingKeepsOrder(verified, remote, k, nonce);
  }

  lemma NextIsForward(s: State, move: Move)
    requires Inv(s) && Possible(s, move)
    ensures RemoteForward(s.remote, Next(s, move).remote) && s.verified <= Next(s, move).verified
    ensures RemoteInv(Next(s, move).verified, Next(s, move).remote)
  {
    var next := Next(s, move);
    match move
    case Run(c, nonce) => ReactKeepsOrder(s.verified, s.remote, s.clones[c], nonce);
    case LostPush(c) => PushIsForward(s.verified, s.remote, s.clones[c]);
    case OthersPush(main) =>
      if s.remote.tag.Some? {
        PublishedStays(s.remote, next.remote, s.remote.tag.value.target);
      }
    case _ =>
  }

  /** The clone that a move touches stays in order, and a PASS it prints is for a published commit. */
  lemma MovedClone(s: State, move: Move)
    requires Inv(s) && Possible(s, move) && !move.OthersPush?
    ensures var next := Next(s, move);
            && move.c in next.clones && CloneInv(next.verified, next.remote, next.clones[move.c])
            && (next.passes == s.passes || (next.passes == s.passes + [s.clones[move.c].head] && Published(next.remote, s.clones[move.c].head)))
  {
    hide React, Ancestor;
    match move
    case Run(c, nonce) => ReactKeepsOrder(s.verified, s.remote, s.clones[c], nonce);
    case _ =>
  }

  lemma UntouchedClone(s: State, move: Move, c: Id)
    requires Possible(s, move) && c in Next(s, move).clones && (move.OthersPush? || c != move.c)
    ensures c in s.clones && Next(s, move).clones[c] == s.clones[c]
  {
  }

  lemma NextKeepsInv(s: State, move: Move)
    requires Inv(s) && Possible(s, move)
    ensures Inv(Next(s, move))
  {
    var next := Next(s, move);
    NextIsForward(s, move);
    if move.OthersPush? {
      assert next.passes == s.passes;
    } else {
      MovedClone(s, move);
    }
    hide Next, Possible, CloneInv, RemoteInv;
    forall c | c in next.clones
      ensures CloneInv(next.verified, next.remote, next.clones[c])
    {
      if move.OthersPush? || c != move.c {
        UntouchedClone(s, move, c);
        CloneStays(s.verified, next.verified, s.remote, next.remote, s.clones[c]);
      }
    }
    forall i | 0 <= i < |next.passes|
      ensures Published(next.remote, next.passes[i])
    {
      if i < |s.passes| {
        assert next.passes[i] == s.passes[i];
        PublishedStays(s.remote, next.remote, s.passes[i]);
      }
    }
  }

  // ---- Runs ----

  ghost predicate IsRun(states: seq<State>, moves: seq<Move>) {
    && |states| == |moves| + 1 && Init(states[0])
    && forall i :: 0 <= i < |moves| ==> Possible(states[i], moves[i]) && states[i + 1] == Next(states[i], moves[i])
  }

  lemma {:induction false} RunKeepsInv(states: seq<State>, moves: seq<Move>, k: nat)
    requires IsRun(states, moves) && k < |states|
    ensures Inv(states[k])
  {
    if k == 0 {
      InitHolds(states[0]);
    } else {
      RunKeepsInv(states, moves, k - 1);
      NextKeepsInv(states[k - 1], moves[k - 1]);
    }
  }

  /** Over any run, main on the remote only fast-forwards, and the acceptance tag never moves. */
  lemma {:induction false} RemoteOnlyFastForwards(states: seq<State>, moves: seq<Move>, j: nat, k: nat)
    requires IsRun(states, moves) && j <= k < |states|
    ensures Ancestor(states[j].remote.main, states[k].remote.main)
    ensures states[j].remote.tag.Some? ==> states[k].remote.tag == states[j].remote.tag
    decreases k
  {
    hide Next, Possible, Inv, Init;
    if j < k {
      RemoteOnlyFastForwards(states, moves, j, k - 1);
      RunKeepsInv(states, moves, k - 1);
      NextIsForward(states[k - 1], moves[k - 1]);
      AncestorTransitive(states[j].remote.main, states[k - 1].remote.main, states[k].remote.main);
    }
  }

  /** The tag appears together with main: in the step that sets it, main becomes its target. */
  lemma TagAppearsWithMain(states: seq<State>, moves: seq<Move>, k: nat)
    requires IsRun(states, moves) && k < |moves|
    requires states[k].remote.tag == None && states[k + 1].remote.tag.Some?
    ensures states[k + 1].remote.main == states[k + 1].remote.tag.value.target
  {
    RunKeepsInv(states, moves, k);
    NextIsForward(states[k], moves[k]);
  }

  /** A tag, local or remote, sits on a commit whose only parent a stage report verified. */
  lemma TagsCloseVerifiedCommits(states: seq<State>, moves: seq<Move>, k: nat)
    requires IsRun(states, moves) && k < |states|
    ensures forall c :: c in states[k].clones && states[k].clones[c].tag.Some? ==>
              Closes(states[k].verified, states[k].clones[c].tag.value.target)
    ensures states[k].remote.tag.Some? ==> Closes(states[k].verified, states[k].remote.tag.value.target)
  {
    RunKeepsInv(states, moves, k);
    forall c | c in states[k].clones && states[k].clones[c].tag.Some?
      ensures Closes(states[k].verified, states[k].clones[c].tag.value.target)
    {
      assert CloneInv(states[k].verified, states[k].remote, states[k].clones[c]);
    }
  }

  /** PASS means published: ever after, main contains the closure commit and the tag points to it.
      So all PASS lines, of all clones, name the same commit. */
  lemma PassMeansPublished(states: seq<State>, moves: seq<Move>, k: nat)
    requires IsRun(states, moves) && k < |states|
    ensures forall i :: 0 <= i < |states[k].passes| ==> Published(states[k].remote, states[k].passes[i])
    ensures forall i, j :: 0 <= i < j < |states[k].passes| ==> states[k].passes[i] == states[k].passes[j]
  {
    RunKeepsInv(states, moves, k);
  }

  /** The process prints PASS only from a phase reached by reading main and the tag equal to HEAD. */
  lemma PassOnlyAfterBothRead(s: State, move: Move)
    requires Possible(s, move)
    ensures Next(s, move).passes ==
            if move.Run? && ReadsBoth(s.remote, s.clones[move.c]) then s.passes + [s.clones[move.c].head] else s.passes
  {
  }

  /** Main and tag have been read equal to HEAD, the tag just now or in the step before; on the first
      publication the tree is clean, too. */
  predicate ReadsBoth(remote: Remote, k: Clone) {
    match k.phase
    case BothSeen(retry) => retry || (k.nothingStaged && !k.dirty)
    case RetryMainRead(main) => main == k.head && remote.tag.Some? && remote.tag.value.target == k.head
    case _ => false
  }

  /** What a process knows when it is about to push: the tag is its own new one, or, on a retry, it has
      read a tag that is absent or at HEAD, without both being there already, and has fetched nothing that
      HEAD lacks. */
  ghost predicate MayPush(remote: Remote, before: Clone, after: Clone)
    requires after.phase.ReadyToPush?
  {
    if after.phase.retry then
      && before.phase.RetryMainRead? && after.tag == before.tag && Ancestor(before.tracking, before.head)
      && (remote.tag.Some? ==> remote.tag.value.target == before.head && before.phase.main != before.head)
    else before.phase.Committed? && after.tag.Some? && after.tag.value.target == before.head
  }

  lemma PushIsSentOnlyIf(remote: Remote, k: Clone, nonce: nat)
    requires React(remote, k, nonce).clone.phase.ReadyToPush?
    ensures React(remote, k, nonce).remote == remote && React(remote, k, nonce).clone.head == k.head
    ensures MayPush(remote, k, React(remote, k, nonce).clone)
  {
    OtherPhasesDoNotPush(remote, k, nonce);
    hide React, MayPush;
    if k.phase.Committed? {
      OwnTagIsPushed(remote, k, nonce);
    } else {
      RetryIsPushed(remote, k, nonce);
    }
  }

  lemma OtherPhasesDoNotPush(remote: Remote, k: Clone, nonce: nat)
    ensures React(remote, k, nonce).clone.phase.ReadyToPush? ==> k.phase.Committed? || k.phase.RetryMainRead?
  {
    hide Ancestor, Accepts, Clean, Peeled, Fetch;
  }

  lemma OwnTagIsPushed(remote: Remote, k: Clone, nonce: nat)
    requires k.phase.Committed?
    ensures var e := React(remote, k, nonce); e.clone.phase.ReadyToPush? && e.remote == remote && e.clone.head == k.head && MayPush(remote, k, e.clone)
  {
  }

  lemma RetryIsPushed(remote: Remote, k: Clone, nonce: nat)
    requires k.phase.RetryMainRead? && React(remote, k, nonce).clone.phase.ReadyToPush?
    ensures var e := React(remote, k, nonce); e.remote == remote && e.clone.head == k.head && MayPush(remote, k, e.clone)
  {
    hide Ancestor;
  }

  // ---- A rerun completes the publication ----

  /** `n` steps of the process in clone `c` with nothing in between. */
  ghost function RunAlone(s: State, c: Id, n: nat): (after: State)
    requires c in s.clones
    ensures c in after.clones
  {
    if n == 0 then s else Next(RunAlone(s, c, n - 1), Run(c, 0))
  }

  /** The same steps, seen from the clone and the remote. */
  ghost function Steps(remote: Remote, k: Clone, n: nat): Effect {
    if n == 0 then Effect(k, remote, false)
    else
      var e := Steps(remote, k, n - 1);
      var next := React(e.remote, e.clone, 0);
      next.(pass := e.pass || next.pass)
  }

  lemma {:induction false} RunAloneIsSteps(s: State, c: Id, n: nat)
    requires c in s.clones
    requires forall m :: 0 <= m < n ==> !Steps(s.remote, s.clones[c], m).pass
    requires forall m :: 0 <= m <= n ==> Steps(s.remote, s.clones[c], m).clone.head == s.clones[c].head
    ensures RunAlone(s, c, n) == Put(s, c, Steps(s.remote, s.clones[c], n))
  {
    hide React;
    if n > 0 {
      RunAloneIsSteps(s, c, n - 1);
      assert !Steps(s.remote, s.clones[c], n - 1).pass;
      assert Steps(s.remote, s.clones[c], n - 1).clone.head == s.clones[c].head;
    } else {
      assert s.clones[c := s.clones[c]] == s.clones;
    }
  }

  /** A retry reads main and the tag; it passes at once if both are at HEAD, and otherwise is
      ready to push. */
  lemma {:induction false} RetryReads(remote: Remote, k: Clone)
    requires k.phase == Idle && k.onMain && Peeled(k.tag) == Some(k.head) && Clean(k) && k.documents
    requires Ancestor(remote.main, k.head) && (remote.tag == None || remote.tag == k.tag)
    ensures Steps(remote, k, 1) == Effect(k.(phase := RetryChecked), remote, false)
    ensures Steps(remote, k, 2) == Effect(k.(tracking := remote.main, phase := RetryFetched), remote, false)
    ensures Steps(remote, k, 3) == Effect(k.(tracking := remote.main, phase := RetryMainRead(remote.main)), remote, false)
    ensures Steps(remote, k, 4) ==
            if remote.main == k.head && Peeled(remote.tag) == Some(k.head) then Effect(k.(tracking := remote.main), remote, true)
            else Effect(k.(tracking := remote.main, phase := ReadyToPush(true)), remote, false)
  {
    hide Ancestor;
    assert Steps(remote, k, 0) == Effect(k, remote, false);
    assert Steps(remote, k, 1) == Effect(k.(phase := RetryChecked), remote, false);
    assert Steps(remote, k, 2) == Effect(k.(tracking := remote.main, phase := RetryFetched), remote, false);
  }

  /** The push and the steps that verify it. */
  lemma PushVerifies(remote: Remote, k: Clone, n: nat)
    requires Steps(remote, k, n).clone.phase == ReadyToPush(true) && !Steps(remote, k, n).pass
    requires Accepts(Steps(remote, k, n).remote, Steps(remote, k, n).clone)
    requires Peeled(Steps(remote, k, n).clone.tag) == Some(Steps(remote, k, n).clone.head)
    ensures var ready := Steps(remote, k, n).clone;
            var pushed := Remote(ready.head, ready.tag);
            && Steps(remote, k, n + 1) == Effect(ready.(phase := Pushed(true)), pushed, false)
            && Steps(remote, k, n + 2) == Effect(ready.(phase := MainSeen(true)), pushed, false)
            && Steps(remote, k, n + 3) == Effect(ready.(phase := BothSeen(true)), pushed, false)
            && Steps(remote, k, n + 4) == Effect(ready.(phase := Idle), pushed, true)
  {
    hide Ancestor;
    var ready := Steps(remote, k, n).clone;
    var pushed := Remote(ready.head, ready.tag);
    assert Steps(remote, k, n + 1) == Effect(ready.(phase := Pushed(true)), pushed, false);
    assert Steps(remote, k, n + 2) == Effect(ready.(phase := MainSeen(true)), pushed, false);
    assert Steps(remote, k, n + 3) == Effect(ready.(phase := BothSeen(true)), pushed, false);
  }

  /** PASS is printed for HEAD, and main and the tag on the remote are this clone's. */
  ghost predicate Completed(s: State, c: Id, after: State)
    requires c in s.clones
  {
    && after.passes == s.passes + [s.clones[c].head]
    && after.remote.main == s.clones[c].head && after.remote.tag == s.clones[c].tag
    && c in after.clones && after.clones[c].phase == Idle
  }

  /** The clone and the remote from which a rerun completes: the local tag is on HEAD, the tree is
      clean, and the remote has not advanced. */
  ghost predicate Resumable(remote: Remote, k: Clone) {
    && k.phase == Idle && k.onMain && Peeled(k.tag) == Some(k.head) && Clean(k) && k.documents
    && Ancestor(remote.main, k.head) && (remote.tag == None || remote.tag == k.tag)
  }

  /** Seen from the clone: the first PASS comes after four or after eight steps, with HEAD unchanged. */
  lemma StepsComplete(remote: Remote, k: Clone) returns (n: nat)
    requires Resumable(remote, k)
    ensures n == 4 || n == 8
    ensures forall m :: 0 <= m < n ==> !Steps(remote, k, m).pass
    ensures forall m :: 0 <= m <= n ==> Steps(remote, k, m).clone.head == k.head
    ensures var e := Steps(remote, k, n);
            e.pass && e.remote.main == k.head && e.remote.tag == k.tag && e.clone.phase == Idle
  {
    RetryReads(remote, k);
    assert Steps(remote, k, 0) == Effect(k, remote, false);
    if Steps(remote, k, 4).pass {
      hide React, Steps, Ancestor;
      n := 4;
    } else {
      PushVerifies(remote, k, 4);
      hide React, Steps, Ancestor;
      n := 8;
    }
  }

  /** A rerun that is neither interrupted nor overtaken completes: it prints PASS with main and the
      tag at HEAD. */
  lemma {:induction false} RerunCompletes(s: State, c: Id)
    requires c in s.clones && Resumable(s.remote, s.clones[c])
    ensures Completed(s, c, RunAlone(s, c, 4)) || Completed(s, c, RunAlone(s, c, 8))
  {
    hide React, Steps, Ancestor, Resumable;
    var n := StepsComplete(s.remote, s.clones[c]);
    RunAloneIsSteps(s, c, n);
  }
}
