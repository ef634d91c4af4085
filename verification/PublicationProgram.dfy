/** The publication tool as the straight-line program it is, proved to do what its steps in
    `Publication` do when nothing comes between them. */
module PublicationProgram {
  import opened Common
  import opened Publication

  /** How many steps a phase is at most away from the end. */
  function Distance(phase: Phase): nat {
    match phase
    case Idle => 0
    case BothSeen(_) => 1
    case MainSeen(_) => 2
    case Pushed(_) => 3
    case ReadyToPush(_) => 4
    case Committed(_) => 5
    case TagAbsent => 6
    case Fetched => 7
    case Prepared => 8
    case RetryMainRead(_) => 5
    case RetryFetched => 6
    case RetryChecked => 7
  }

  lemma PublishingComesCloser(remote: Remote, k: Clone, nonce: nat)
    requires k.phase.Prepared? || k.phase.Fetched? || k.phase.TagAbsent? || k.phase.Committed?
    ensures Distance(React(remote, k, nonce).clone.phase) < Distance(k.phase)
  {
    hide Ancestor;
  }

  lemma PushingComesCloser(remote: Remote, k: Clone, nonce: nat)
    requires k.phase.ReadyToPush? || k.phase.Pushed? || k.phase.MainSeen? || k.phase.BothSeen?
    ensures Distance(React(remote, k, nonce).clone.phase) < Distance(k.phase)
  {
    hide Accepts, Peeled;
  }

  lemma RetryComesCloser(remote: Remote, k: Clone, nonce: nat)
    requires k.phase.RetryChecked? || k.phase.RetryFetched? || k.phase.RetryMainRead?
    ensures Distance(React(remote, k, nonce).clone.phase) < Distance(k.phase)
  {
    hide Ancestor, Peeled;
  }

  lemma ReactComesCloser(remote: Remote, k: Clone, nonce: nat)
    requires k.phase != Idle
    ensures Distance(React(remote, k, nonce).clone.phase) < Distance(k.phase)
  {
    hide React, Distance;
    if k.phase.RetryChecked? || k.phase.RetryFetched? || k.phase.RetryMainRead? {
      RetryComesCloser(remote, k, nonce);
    } else if k.phase.Prepared? || k.phase.Fetched? || k.phase.TagAbsent? || k.phase.Committed? {
      PublishingComesCloser(remote, k, nonce);
    } else {
      PushingComesCloser(remote, k, nonce);
    }
  }

  /** The remaining steps of a process, up to its end. */
  ghost function Finish(remote: Remote, k: Clone, nonce: nat): Effect
    decreases Distance(k.phase)
  {
    if k.phase == Idle then Effect(k, remote, false)
    else
      ReactComesCloser(remote, k, nonce);
      var e := React(remote, k, nonce);
      if e.clone.phase == Idle then e else Finish(e.remote, e.clone, nonce)
  }

  /** A whole run of the tool. */
  ghost function WholeRun(remote: Remote, k: Clone, nonce: nat): Effect {
    var e := Start(remote, k);
    Finish(e.remote, e.clone, nonce)
  }

  lemma {:induction false} FinishStep(remote: Remote, k: Clone, nonce: nat)
    requires k.phase != Idle
    ensures var e := React(remote, k, nonce);
            Finish(remote, k, nonce) == if e.clone.phase == Idle then e else Finish(e.remote, e.clone, nonce)
  {
  }

  class Checkout {
    var remote: Remote
    var clone: Clone

    ghost function At(phase: Phase): Clone
      reads this
    {
      clone.(phase := phase)
    }

    /** `assertRemoteLease`: fetch, look for the tag, compare with origin/main. */
    method AssertRemoteLease(nonce: nat) returns (ok: bool)
      requires clone.phase == Idle
      modifies this`clone
      ensures clone == Fetch(remote, old(clone))
      ensures ok <==> remote.tag == None && Ancestor(remote.main, clone.head) && !Ancestor(clone.head, remote.main)
      ensures Finish(remote, old(At(Prepared)), nonce) == if ok then Finish(remote, At(TagAbsent), nonce) else Effect(clone, remote, false)
    {
      hide Ancestor, Finish;
      FinishStep(remote, At(Prepared), nonce);
      clone := Fetch(remote, clone);
      FinishStep(remote, At(Fetched), nonce);
      if remote.tag.Some? {
        return false;
      }
      FinishStep(remote, At(TagAbsent), nonce);
      ok := IsAncestor(clone.tracking, clone.head);
      if ok {
        var level := IsAncestor(clone.head, clone.tracking);
        ok := !level;
      }
    }

    /** The atomic push and `verifyRemotePublication`. */
    method PushAndVerify(ghost retry: bool, nonce: nat) returns (ok: bool)
      requires clone.phase == Idle && (retry || clone.documents)
      modifies this`remote
      ensures ok <==> Accepts(old(remote), clone) && Peeled(clone.tag) == Some(clone.head)
      ensures remote == if Accepts(old(remote), clone) then Remote(clone.head, clone.tag) else old(remote)
      ensures Finish(old(remote), At(ReadyToPush(retry)), nonce) ==
              if ok then Finish(remote, At(BothSeen(retry)), nonce) else Effect(clone, remote, false)
    {
      hide Ancestor, Finish, React;
      PushStep(remote, At(ReadyToPush(retry)), nonce);
      var forward := IsAncestor(remote.main, clone.head);
      if !(clone.tag.Some? && forward && (remote.tag == None || remote.tag == clone.tag)) {
        return false;
      }
      remote := Remote(clone.head, clone.tag);
      ReadStep(remote, At(Pushed(retry)), nonce);
      var remoteMain := remote.main;
      ReadStep(remote, At(MainSeen(retry)), nonce);
      var remoteTag := Peeled(remote.tag);
      return remoteMain == clone.head && remoteTag == Some(clone.head);
    }

    /** `retryOrConfirmExistingLocalPublication`. */
    method RetryOrConfirm(nonce: nat) returns (pass: bool)
      requires clone.phase == Idle && clone.onMain && clone.tag.Some?
      modifies this
      ensures Effect(clone, remote, pass) == WholeRun(old(remote), old(clone), nonce)
    {
      hide Ancestor, Finish;
      EndsAtOnce(remote, clone, nonce);
      if clone.tag.value.target != clone.head || !Clean(clone) || !clone.documents {
        return false;
      }
      FinishStep(remote, At(RetryChecked), nonce);
      clone := Fetch(remote, clone);
      FinishStep(remote, At(RetryFetched), nonce);
      var remoteMain := remote.main;
      FinishStep(remote, At(RetryMainRead(remoteMain)), nonce);
      var remoteTag := Peeled(remote.tag);
      if remoteMain == clone.head && remoteTag == Some(clone.head) {
        return true;
      }
      if remoteTag.Some? && remoteTag != Some(clone.head) {
        return false;
      }
      var current := IsAncestor(clone.tracking, clone.head);
      if !current {
        return false;
      }
      pass := PushAndVerify(true, nonce);
      FinishStep(remote, At(BothSeen(true)), nonce);
    }

    /** `publishStageClosure`. */
    method Publish(nonce: nat) returns (pass: bool)
      requires clone.phase == Idle
      modifies this
      ensures Effect(clone, remote, pass) == WholeRun(old(remote), old(clone), nonce)
    {
      hide Ancestor, Finish;
      EndsAtOnce(remote, clone, nonce);
      if !clone.onMain {
        return false;
      }
      if clone.tag.Some? {
        pass := RetryOrConfirm(nonce);
        return;
      }
      if !clone.prepared || clone.dirty || !clone.documents || clone.report != Some(clone.head) {
        return false;
      }
      var leased := AssertRemoteLease(nonce);
      if !leased {
        return false;
      }
      pass := CommitTagAndPush(nonce);
    }

    /** The part of `publishStageClosure` that writes. */
    method CommitTagAndPush(nonce: nat) returns (pass: bool)
      requires clone.phase == Idle && clone.documents && Ancestor(clone.tracking, clone.head) && !Ancestor(clone.head, clone.tracking)
      modifies this
      ensures Effect(clone, remote, pass) == Finish(old(remote), old(At(TagAbsent)), nonce)
    {
      hide Ancestor, Finish;
      FinishStep(remote, At(TagAbsent), nonce);
      var technicalCommit := clone.head;
      clone := clone.(head := Commit([technicalCommit], nonce), prepared := false, nothingStaged := true);
      FinishStep(remote, At(Committed(technicalCommit)), nonce);
      clone := clone.(tag := Some(Tag(clone.head, nonce)));
      pass := PushAndVerify(false, nonce);
      FinishStep(remote, At(BothSeen(false)), nonce);
      if pass && !Clean(clone) {
        pass := false;
      }
    }
  }

  lemma {:induction false} PushStep(remote: Remote, k: Clone, nonce: nat)
    requires k.phase.ReadyToPush? && (k.phase.retry || k.documents)
    ensures Finish(remote, k, nonce) ==
            if Accepts(remote, k) then Finish(Remote(k.head, k.tag), k.(phase := Pushed(k.phase.retry)), nonce)
            else Effect(k.(phase := Idle), remote, false)
  {
    hide Accepts;
  }

  lemma ReadStep(remote: Remote, k: Clone, nonce: nat)
    requires k.phase.Pushed? || k.phase.MainSeen?
    ensures var seen := if k.phase.Pushed? then remote.main == k.head else Peeled(remote.tag) == Some(k.head);
            var next := if k.phase.Pushed? then MainSeen(k.phase.retry) else BothSeen(k.phase.retry);
            Finish(remote, k, nonce) == if seen then Finish(remote, k.(phase := next), nonce) else Effect(k.(phase := Idle), remote, false)
  {
    hide Accepts;
  }

  lemma EndsAtOnce(remote: Remote, k: Clone, nonce: nat)
    ensures Start(remote, k).clone.phase == Idle ==> WholeRun(remote, k, nonce) == Start(remote, k)
  {
  }

  lemma {:induction false} RetryStep(remote: Remote, k: Clone, nonce: nat)
    requires Resumable(remote, k)
    ensures var ready := k.(tracking := remote.main, phase := ReadyToPush(true));
            WholeRun(remote, k, nonce) ==
            if remote.main == k.head && Peeled(remote.tag) == Some(k.head) then Effect(k.(tracking := remote.main), remote, true)
            else Finish(remote, ready, nonce)
  {
    hide Ancestor, Finish;
    FinishStep(remote, k.(phase := RetryChecked), nonce);
    FinishStep(remote, k.(tracking := remote.main, phase := RetryFetched), nonce);
    FinishStep(remote, k.(tracking := remote.main, phase := RetryMainRead(remote.main)), nonce);
  }

  /** The program, rerun with the local tag on HEAD, a clean tree and a remote that has not advanced,
      prints PASS and leaves main and the tag of this clone on the remote. */
  lemma RerunPasses(remote: Remote, k: Clone, nonce: nat)
    requires Resumable(remote, k)
    ensures var e := WholeRun(remote, k, nonce); e.pass && e.remote == Remote(k.head, k.tag)
  {
    RetryStep(remote, k, nonce);
    var ready := k.(tracking := remote.main, phase := ReadyToPush(true));
    var pushed := Remote(k.head, k.tag);
    PushStep(remote, ready, nonce);
    ReadStep(pushed, ready.(phase := Pushed(true)), nonce);
    ReadStep(pushed, ready.(phase := MainSeen(true)), nonce);
    FinishStep(pushed, ready.(phase := BothSeen(true)), nonce);
    hide Ancestor, Finish, WholeRun;
  }

  // ---- When an undisturbed run passes ----

  /** The stage can be published for the first time. */
  ghost predicate Publishable(remote: Remote, k: Clone) {
    && k.onMain && k.tag == None && k.prepared && !k.dirty && k.documents && k.report == Some(k.head)
    && remote.tag == None && Ancestor(remote.main, k.head) && !Ancestor(k.head, remote.main)
  }

  /** The local closure is published already, or can still be pushed. */
  ghost predicate Retryable(remote: Remote, k: Clone) {
    && k.onMain && Peeled(k.tag) == Some(k.head) && Clean(k) && k.documents
    && ((remote.main == k.head && Peeled(remote.tag) == Some(k.head)) || Accepts(remote, k))
  }

  lemma FirstRun(remote: Remote, k: Clone, nonce: nat)
    requires k.phase == Idle && k.onMain && k.tag == None && k.prepared && !k.dirty && k.documents && k.report == Some(k.head)
    ensures var e := WholeRun(remote, k, nonce);
            && (e.pass <==> Publishable(remote, k))
            && (e.pass ==> e.clone.head == Commit([k.head], nonce) && Peeled(e.clone.tag) == Some(e.clone.head)
                           && e.remote == Remote(e.clone.head, e.clone.tag))
  {
    hide Finish, Accepts;
    var fetched := Fetch(remote, k).(phase := Fetched);
    FinishStep(remote, k.(phase := Prepared), nonce);
    FinishStep(remote, fetched, nonce);
    if remote.tag == None {
      FinishStep(remote, fetched.(phase := TagAbsent), nonce);
      if Ancestor(remote.main, k.head) && !Ancestor(k.head, remote.main) {
        var closed := fetched.(head := Commit([k.head], nonce), prepared := false, nothingStaged := true, phase := Committed(k.head));
        assert closed.head.parents[0] == k.head;
        assert Ancestor(remote.main, closed.head);
        TaggedRun(remote, closed, nonce);
      }
    }
  }

  /** From the closure commit on, nothing stops an undisturbed run. */
  lemma {:induction false} TaggedRun(remote: Remote, k: Clone, nonce: nat)
    requires k.phase.Committed? && k.documents && Clean(k) && remote.tag == None && Ancestor(remote.main, k.head)
    ensures var tagged := k.(tag := Some(Tag(k.head, nonce)), phase := Idle);
            Finish(remote, k, nonce) == Effect(tagged, Remote(k.head, tagged.tag), true)
  {
    hide Ancestor, Finish;
    var ready := k.(tag := Some(Tag(k.head, nonce)), phase := ReadyToPush(false));
    var pushed := Remote(k.head, ready.tag);
    FinishStep(remote, k, nonce);
    PushStep(remote, ready, nonce);
    ReadStep(pushed, ready.(phase := Pushed(false)), nonce);
    ReadStep(pushed, ready.(phase := MainSeen(false)), nonce);
    FinishStep(pushed, ready.(phase := BothSeen(false)), nonce);
  }

  /** The push of a retry and its verification, undisturbed. */
  lemma {:induction false} PushedRun(remote: Remote, k: Clone, nonce: nat)
    requires k.phase == ReadyToPush(true) && Peeled(k.tag) == Some(k.head)
    ensures var e := Finish(remote, k, nonce);
            (e.pass <==> Accepts(remote, k)) && (e.pass ==> e.remote == Remote(k.head, k.tag))
  {
    hide Finish, Accepts, Ancestor;
    PushStep(remote, k, nonce);
    if Accepts(remote, k) {
      var pushed := Remote(k.head, k.tag);
      ReadStep(pushed, k.(phase := Pushed(true)), nonce);
      ReadStep(pushed, k.(phase := MainSeen(true)), nonce);
      FinishStep(pushed, k.(phase := BothSeen(true)), nonce);
    }
  }

  lemma RetryRun(remote: Remote, k: Clone, nonce: nat)
    requires k.phase == Idle && k.onMain && Peeled(k.tag) == Some(k.head) && Clean(k) && k.documents
    ensures WholeRun(remote, k, nonce).pass <==> Retryable(remote, k)
  {
    hide Finish, Ancestor;
    var fetched := k.(tracking := remote.main, phase := RetryFetched);
    FinishStep(remote, k.(phase := RetryChecked), nonce);
    FinishStep(remote, fetched, nonce);
    FinishStep(remote, fetched.(phase := RetryMainRead(remote.main)), nonce);
    PushedRun(remote, fetched.(phase := ReadyToPush(true)), nonce);
  }

  /** An undisturbed run passes exactly when the stage is publishable for the first time, or its
      local closure is on the remote already or can be pushed. */
  lemma RunPassesIff(remote: Remote, k: Clone, nonce: nat)
    requires k.phase == Idle
    ensures WholeRun(remote, k, nonce).pass <==> Publishable(remote, k) || Retryable(remote, k)
  {
    hide Finish, Ancestor, Accepts;
    if k.onMain && k.tag == None && k.prepared && !k.dirty && k.documents && k.report == Some(k.head) {
      FirstRun(remote, k, nonce);
    } else if k.onMain && Peeled(k.tag) == Some(k.head) && Clean(k) && k.documents {
      RetryRun(remote, k, nonce);
    } else {
      EndsAtOnce(remote, k, nonce);
    }
  }

  /** An undisturbed run that does not pass leaves the remote and HEAD as they were, and no tag of its own. */
  lemma FailedRunLeavesAll(remote: Remote, k: Clone, nonce: nat)
    requires k.phase == Idle && !WholeRun(remote, k, nonce).pass
    ensures var e := WholeRun(remote, k, nonce);
            e.remote == remote && e.clone.head == k.head && (e.clone.tag == k.tag || (k.tag == None && e.clone.tag == remote.tag))
  {
    hide Finish, Ancestor, Accepts;
    RunPassesIff(remote, k, nonce);
    if k.onMain && k.tag == None && k.prepared && !k.dirty && k.documents && k.report == Some(k.head) {
      var fetched := Fetch(remote, k).(phase := Fetched);
      FinishStep(remote, k.(phase := Prepared), nonce);
      FinishStep(remote, fetched, nonce);
      FinishStep(remote, fetched.(phase := TagAbsent), nonce);
    } else if k.onMain && Peeled(k.tag) == Some(k.head) && Clean(k) && k.documents {
      var fetched := k.(tracking := remote.main, phase := RetryFetched);
      FinishStep(remote, k.(phase := RetryChecked), nonce);
      FinishStep(remote, fetched, nonce);
      FinishStep(remote, fetched.(phase := RetryMainRead(remote.main)), nonce);
      PushStep(remote, fetched.(phase := ReadyToPush(true)), nonce);
      PushedRun(remote, fetched.(phase := ReadyToPush(true)), nonce);
    } else {
      EndsAtOnce(remote, k, nonce);
    }
  }

  /** `git rev-list --left-right --count` finds nothing on the left. */
  method IsAncestor(a: Commit, c: Commit) returns (yes: bool)
    ensures yes == Ancestor(a, c)
    decreases c
  {
    if a == c {
      return true;
    }
    var i := 0;
    while i < |c.parents|
      invariant i <= |c.parents| && forall j :: 0 <= j < i ==> !Ancestor(a, c.parents[j])
    {
      yes := IsAncestor(a, c.parents[i]);
      if yes {
        return true;
      }
      i := i + 1;
    }
    return false;
  }
}
