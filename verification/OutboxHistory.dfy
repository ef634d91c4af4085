/** The outbox model told from its own earlier answers: every answer of a run, without the state. */
module OutboxHistory {
  import opened Common
  import opened OutboxLease

  /** An earlier enqueue created this message. */
  ghost predicate WasCreated(ops: seq<Operation>, n: nat, id: string)
    requires n <= |ops|
  {
    exists i :: 0 <= i < n && Creates(ops, i, id)
  }

  predicate Creates(ops: seq<Operation>, i: nat, id: string)
    requires i < |ops|
  {
    ops[i].Enqueue? && Trim(ops[i].messageId) == id && AnswerAt(ops, i) == Created(id)
  }

  /** It created the message for this joined organization and key. */
  predicate CreatesFor(ops: seq<Operation>, i: nat, id: string, identity: string)
    requires i < |ops|
  {
    Creates(ops, i, id) && Trim(ops[i].organization) + ['\0'] + Trim(ops[i].key) == identity
  }

  ghost predicate WasCreatedFor(ops: seq<Operation>, n: nat, id: string, identity: string)
    requires n <= |ops|
  {
    exists i :: 0 <= i < n && CreatesFor(ops, i, id, identity)
  }

  datatype Lease = Lease(owner: string, until: int)

  /** The lease of the latest claim granted on the message before operation `n`. */
  function LatestLease(ops: seq<Operation>, n: nat, id: string): Option<Lease>
    requires n <= |ops|
  {
    if n == 0 then None
    else if GrantsOn(ops, n - 1, id) then Some(Lease(Trim(ops[n - 1].owner), ops[n - 1].now + ops[n - 1].leaseMilliseconds))
    else LatestLease(ops, n - 1, id)
  }

  predicate RunsAt(lease: Option<Lease>, now: int) {
    lease.Some? && now < lease.value.until
  }

  predicate Processes(ops: seq<Operation>, i: nat, id: string, identity: string)
    requires i < |ops|
  {
    ProcessesOn(ops, i, id) && Trim(ops[i].consumer) + ['\0'] + Trim(ops[i].delivery) == identity
  }

  ghost predicate WasProcessed(ops: seq<Operation>, n: nat, id: string, identity: string)
    requires n <= |ops|
  {
    exists i :: 0 <= i < n && Processes(ops, i, id, identity)
  }

  // ---- What the state remembers ----

  lemma MessageStep(o: Outbox, op: Operation, id: string)
    ensures id in After(o, op).messages <==> id in o.messages || (op.Enqueue? && Trim(op.messageId) == id && AnswerTo(o, op) == Created(id))
  {
    hide Identity, Trim;
  }

  lemma {:induction false} MessagesWereCreated(ops: seq<Operation>, n: nat, id: string)
    requires n <= |ops|
    ensures id in StateAfter(ops[..n]).messages <==> WasCreated(ops, n, id)
  {
    if n == 0 {
      assert ops[..0] == [];
    } else {
      MessagesWereCreated(ops, n - 1, id);
      StateStep(ops, n - 1);
      MessageStep(StateAfter(ops[..n - 1]), ops[n - 1], id);
      hide StateAfter, After, AnswerTo, Trim;
      assert WasCreated(ops, n, id) <==> WasCreated(ops, n - 1, id) || Creates(ops, n - 1, id);
    }
  }

  predicate IndexedAs(o: Outbox, identity: string, id: string) {
    identity in o.index && o.index[identity] == id
  }

  lemma IndexStep(o: Outbox, op: Operation, identity: string, id: string)
    ensures IndexedAs(After(o, op), identity, id) <==>
            IndexedAs(o, identity, id)
            || (op.Enqueue? && Trim(op.messageId) == id && AnswerTo(o, op) == Created(id)
                && Trim(op.organization) + ['\0'] + Trim(op.key) == identity)
  {
    hide Trim;
  }

  lemma {:induction false} IndexWasCreated(ops: seq<Operation>, n: nat, identity: string, id: string)
    requires n <= |ops|
    ensures IndexedAs(StateAfter(ops[..n]), identity, id) <==> WasCreatedFor(ops, n, id, identity)
  {
    if n == 0 {
      assert ops[..0] == [];
    } else {
      IndexWasCreated(ops, n - 1, identity, id);
      StateStep(ops, n - 1);
      IndexStep(StateAfter(ops[..n - 1]), ops[n - 1], identity, id);
      hide StateAfter, After, AnswerTo, Trim, IndexedAs;
      assert WasCreatedFor(ops, n, id, identity) <==> WasCreatedFor(ops, n - 1, id, identity) || CreatesFor(ops, n - 1, id, identity);
    }
  }

  lemma DeliveryStep(o: Outbox, op: Operation, id: string, identity: string)
    ensures identity in Delivered(After(o, op), id) <==>
            identity in Delivered(o, id)
            || (op.Complete? && Trim(op.messageId) == id && AnswerTo(o, op).Processed?
                && Trim(op.consumer) + ['\0'] + Trim(op.delivery) == identity)
  {
    hide Trim;
  }

  lemma {:induction false} DeliveriesWereProcessed(ops: seq<Operation>, n: nat, id: string, identity: string)
    requires n <= |ops|
    ensures identity in Delivered(StateAfter(ops[..n]), id) <==> WasProcessed(ops, n, id, identity)
  {
    if n == 0 {
      assert ops[..0] == [];
    } else {
      DeliveriesWereProcessed(ops, n - 1, id, identity);
      StateStep(ops, n - 1);
      DeliveryStep(StateAfter(ops[..n - 1]), ops[n - 1], id, identity);
      hide StateAfter, After, AnswerTo, Trim, Delivered;
      assert WasProcessed(ops, n, id, identity) <==> WasProcessed(ops, n - 1, id, identity) || Processes(ops, n - 1, id, identity);
    }
  }

  /** The state holds this lease, or none. */
  predicate Holds(o: Outbox, id: string, lease: Option<Lease>) {
    if id in o.messages then
      o.messages[id].leaseOwner == (if lease.Some? then Some(lease.value.owner) else None)
      && o.messages[id].leaseExpiresAt == (if lease.Some? then Some(lease.value.until) else None)
    else lease == None
  }

  lemma HoldsStep(o: Outbox, op: Operation, id: string, lease: Option<Lease>)
    requires Holds(o, id, lease)
    ensures Holds(After(o, op), id,
                  if op.Claim? && Trim(op.messageId) == id && AnswerTo(o, op).Claimed? then Some(Lease(Trim(op.owner), op.now + op.leaseMilliseconds))
                  else lease)
  {
    hide Identity, Trim;
  }

  lemma {:induction false} LatestLeaseIsHeld(ops: seq<Operation>, n: nat, id: string)
    requires n <= |ops|
    ensures Holds(StateAfter(ops[..n]), id, LatestLease(ops, n, id))
  {
    hide After, AnswerTo, Trim;
    if n == 0 {
      assert ops[..0] == [];
    } else {
      hide StateAfter, Holds;
      LatestLeaseIsHeld(ops, n - 1, id);
      StateStep(ops, n - 1);
      HoldsStep(StateAfter(ops[..n - 1]), ops[n - 1], id, LatestLease(ops, n - 1, id));
    }
  }

  // ---- Every answer ----

  /** An enqueue: blank parts are refused; a pair that an earlier enqueue created is answered with that
      message; an id that an earlier enqueue created, for another pair, is refused; else it is created. */
  lemma EnqueueAnswerIs(ops: seq<Operation>, n: nat)
    requires n < |ops| && ops[n].Enqueue?
    ensures var id, organization, key := Trim(ops[n].messageId), Trim(ops[n].organization), Trim(ops[n].key);
            var identity := organization + ['\0'] + key;
            var answer := AnswerAt(ops, n);
            if id == "" || organization == "" || key == "" then answer == Failed(Blank)
            else if exists m :: WasCreatedFor(ops, n, m, identity) then answer.Duplicate? && WasCreatedFor(ops, n, answer.messageId, identity)
            else if WasCreated(ops, n, id) then answer == Failed(MessageIdTaken)
            else answer == Created(id)
  {
    var id, identity := Trim(ops[n].messageId), Trim(ops[n].organization) + ['\0'] + Trim(ops[n].key);
    var o := StateAfter(ops[..n]);
    MessagesWereCreated(ops, n, id);
    forall m
      ensures IndexedAs(o, identity, m) <==> WasCreatedFor(ops, n, m, identity)
    {
      IndexWasCreated(ops, n, identity, m);
    }
    hide StateAfter, Trim, WasCreatedFor, WasCreated;
    assert identity in o.index ==> IndexedAs(o, identity, o.index[identity]);
  }

  /** A claim: granted on every message that exists, unless the latest grant on it has not run out. */
  lemma ClaimAnswerIs(ops: seq<Operation>, n: nat)
    requires n < |ops| && ops[n].Claim?
    ensures var id, owner, now := Trim(ops[n].messageId), Trim(ops[n].owner), ops[n].now;
            var answer := AnswerAt(ops, n);
            if id == "" || owner == "" then answer == Failed(Blank)
            else if ops[n].leaseMilliseconds < 1 then answer == Failed(NotPositive)
            else if !WasCreated(ops, n, id) then answer == Missing
            else if RunsAt(LatestLease(ops, n, id), now) then answer == Busy(LatestLease(ops, n, id).value.owner)
            else answer == Claimed(owner)
  {
    var id := Trim(ops[n].messageId);
    MessagesWereCreated(ops, n, id);
    LatestLeaseIsHeld(ops, n, id);
    hide StateAfter, Trim, WasCreated, LatestLease;
  }

  /** A completion: refused unless the latest grant on the message is the owner's and has not run out;
      then processed unless the same delivery was processed on the message before. */
  lemma CompleteAnswerIs(ops: seq<Operation>, n: nat)
    requires n < |ops| && ops[n].Complete?
    ensures var id, owner, now := Trim(ops[n].messageId), Trim(ops[n].owner), ops[n].now;
            var consumer, delivery := Trim(ops[n].consumer), Trim(ops[n].delivery);
            var answer := AnswerAt(ops, n);
            if id == "" || owner == "" || consumer == "" || delivery == "" then answer == Failed(Blank)
            else if !WasCreated(ops, n, id) then answer == Failed(MessageMissing)
            else if !(RunsAt(LatestLease(ops, n, id), now) && LatestLease(ops, n, id).value.owner == owner) then answer == Failed(NoLiveLease)
            else if WasProcessed(ops, n, id, consumer + ['\0'] + delivery) then answer == AlreadyDelivered
            else answer == Processed
  {
    var id := Trim(ops[n].messageId);
    MessagesWereCreated(ops, n, id);
    DeliveriesWereProcessed(ops, n, id, Trim(ops[n].consumer) + ['\0'] + Trim(ops[n].delivery));
    LatestLeaseIsHeld(ops, n, id);
    hide StateAfter, Trim, WasCreated, LatestLease, WasProcessed;
  }
}
