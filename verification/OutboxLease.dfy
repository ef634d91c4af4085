/** `OutboxLeaseModel` and `compositeIdentity` of tools/spikes/p1.9-models.ts. Times are milliseconds. */
module OutboxLease {
  import opened Common

  /** How the model joins two parts of an identity. */
  function Identity(first: string, second: string): string {
    first + NUL + second
  }

  datatype Message = Message(organization: string, key: string, delivered: set<string>,
                             leaseOwner: Option<string>, leaseExpiresAt: Option<int>)

  datatype Outbox = Outbox(messages: map<string, Message>, index: map<string, string>)

  datatype Operation =
    | Enqueue(messageId: string, organization: string, key: string)
    | Claim(messageId: string, owner: string, now: int, leaseMilliseconds: int)
    | Complete(messageId: string, owner: string, consumer: string, delivery: string, now: int)

  datatype Error = Blank | NotPositive | MessageIdTaken | MessageMissing | NoLiveLease

  datatype Answer =
    | Created(messageId: string) | Duplicate(messageId: string)
    | Claimed(owner: string) | Busy(owner: string) | Missing
    | Processed | AlreadyDelivered
    | Failed(error: Error)

  predicate LeaseLive(m: Message, now: int) {
    m.leaseOwner.Some? && m.leaseExpiresAt.Some? && m.leaseExpiresAt.value > now
  }

  function EnqueueAnswer(o: Outbox, id: string, organization: string, key: string): Answer {
    if id == "" || organization == "" || key == "" then Failed(Blank)
    else if Identity(organization, key) in o.index then Duplicate(o.index[Identity(organization, key)])
    else if id in o.messages then Failed(MessageIdTaken)
    else Created(id)
  }

  function ClaimAnswer(o: Outbox, id: string, owner: string, now: int, lease: int): Answer {
    if id == "" || owner == "" then Failed(Blank)
    else if lease < 1 then Failed(NotPositive)
    else if id !in o.messages then Missing
    else if LeaseLive(o.messages[id], now) then Busy(o.messages[id].leaseOwner.value)
    else Claimed(owner)
  }

  function CompleteAnswer(o: Outbox, id: string, owner: string, consumer: string, delivery: string, now: int): Answer {
    if id == "" || owner == "" || consumer == "" || delivery == "" then Failed(Blank)
    else if id !in o.messages then Failed(MessageMissing)
    else if o.messages[id].leaseOwner != Some(owner) || !LeaseLive(o.messages[id], now) then Failed(NoLiveLease)
    else if Identity(consumer, delivery) in o.messages[id].delivered then AlreadyDelivered
    else Processed
  }

  function AnswerTo(o: Outbox, op: Operation): Answer {
    match op
    case Enqueue(id, organization, key) => EnqueueAnswer(o, Trim(id), Trim(organization), Trim(key))
    case Claim(id, owner, now, lease) => ClaimAnswer(o, Trim(id), Trim(owner), now, lease)
    case Complete(id, owner, consumer, delivery, now) =>
      CompleteAnswer(o, Trim(id), Trim(owner), Trim(consumer), Trim(delivery), now)
  }

  function NewMessage(organization: string, key: string): Message {
    Message(organization, key, {}, None, None)
  }

  /** Only a creation, a granted claim and a processed delivery change anything. */
  function After(o: Outbox, op: Operation): Outbox {
    var id := Trim(op.messageId);
    match AnswerTo(o, op)
    case Created(_) =>
      Outbox(o.messages[id := NewMessage(Trim(op.organization), Trim(op.key))],
             o.index[Identity(Trim(op.organization), Trim(op.key)) := id])
    case Claimed(owner) =>
      o.(messages := o.messages[id := o.messages[id].(leaseOwner := Some(owner), leaseExpiresAt := Some(op.now + op.leaseMilliseconds))])
    case Processed =>
      o.(messages := o.messages[id := o.messages[id].(delivered := o.messages[id].delivered + {Identity(Trim(op.consumer), Trim(op.delivery))})])
    case _ => o
  }

  class OutboxLeaseModel {
    var messages: map<string, Message>
    var idempotencyIndex: map<string, string>

    ghost function Contents(): Outbox
      reads this
    {
      Outbox(messages, idempotencyIndex)
    }

    constructor ()
      ensures Contents() == Outbox(map[], map[])
    {
      messages := map[];
      idempotencyIndex := map[];
    }

    method Enqueue(messageIdValue: string, organizationValue: string, keyValue: string) returns (answer: Answer)
      modifies this
      ensures answer == AnswerTo(old(Contents()), Operation.Enqueue(messageIdValue, organizationValue, keyValue))
      ensures Contents() == After(old(Contents()), Operation.Enqueue(messageIdValue, organizationValue, keyValue))
    {
      var messageId, organization, key := Trim(messageIdValue), Trim(organizationValue), Trim(keyValue);
      if messageId == "" || organization == "" || key == "" {
        return Failed(Blank);
      }
      var identity := Identity(organization, key);
      if identity in idempotencyIndex {
        return Duplicate(idempotencyIndex[identity]);
      }
      if messageId in messages {
        return Failed(MessageIdTaken);
      }
      messages := messages[messageId := NewMessage(organization, key)];
      idempotencyIndex := idempotencyIndex[identity := messageId];
      return Created(messageId);
    }

    method Claim(messageIdValue: string, ownerValue: string, now: int, leaseMilliseconds: int) returns (answer: Answer)
      modifies this
      ensures answer == AnswerTo(old(Contents()), Operation.Claim(messageIdValue, ownerValue, now, leaseMilliseconds))
      ensures Contents() == After(old(Contents()), Operation.Claim(messageIdValue, ownerValue, now, leaseMilliseconds))
    {
      var messageId, owner := Trim(messageIdValue), Trim(ownerValue);
      if messageId == "" || owner == "" {
        return Failed(Blank);
      }
      if leaseMilliseconds < 1 {
        return Failed(NotPositive);
      }
      if messageId !in messages {
        return Missing;
      }
      var state := messages[messageId];
      if state.leaseOwner.Some? && state.leaseExpiresAt.Some? && state.leaseExpiresAt.value > now {
        return Busy(state.leaseOwner.value);
      }
      messages := messages[messageId := state.(leaseOwner := Some(owner), leaseExpiresAt := Some(now + leaseMilliseconds))];
      return Claimed(owner);
    }

    method Complete(messageIdValue: string, ownerValue: string, consumerValue: string, deliveryValue: string, now: int) returns (answer: Answer)
      modifies this
      ensures answer == AnswerTo(old(Contents()), Operation.Complete(messageIdValue, ownerValue, consumerValue, deliveryValue, now))
      ensures Contents() == After(old(Contents()), Operation.Complete(messageIdValue, ownerValue, consumerValue, deliveryValue, now))
    {
      var messageId, owner := Trim(messageIdValue), Trim(ownerValue);
      var consumer, delivery := Trim(consumerValue), Trim(deliveryValue);
      if messageId == "" || owner == "" || consumer == "" || delivery == "" {
        return Failed(Blank);
      }
      if messageId !in messages {
        return Failed(MessageMissing);
      }
      var state := messages[messageId];
      if state.leaseOwner != Some(owner) || state.leaseExpiresAt == None || state.leaseExpiresAt.value <= now {
        return Failed(NoLiveLease);
      }
      var identity := Identity(consumer, delivery);
      if identity in state.delivered {
        return AlreadyDelivered;
      }
      messages := messages[messageId := state.(delivered := state.delivered + {identity})];
      return Processed;
    }

    method DeliveryCount(messageIdValue: string) returns (count: Result<nat, Error>)
      ensures count == if Trim(messageIdValue) == "" then Err(Blank) else Ok(|Delivered(Contents(), Trim(messageIdValue))|)
    {
      var messageId := Trim(messageIdValue);
      if messageId == "" {
        return Err(Blank);
      }
      return Ok(if messageId in messages then |messages[messageId].delivered| else 0);
    }
  }

  function Delivered(o: Outbox, id: string): set<string> {
    if id in o.messages then o.messages[id].delivered else {}
  }

  // ---- Runs ----

  function StateAfter(ops: seq<Operation>): Outbox
    decreases |ops|
  {
    if ops == [] then Outbox(map[], map[]) else After(StateAfter(ops[..|ops| - 1]), ops[|ops| - 1])
  }

  /** The answer to operation `i` of a run. */
  function AnswerAt(ops: seq<Operation>, i: nat): Answer
    requires i < |ops|
  {
    AnswerTo(StateAfter(ops[..i]), ops[i])
  }

  lemma StateStep(ops: seq<Operation>, i: nat)
    requires i < |ops|
    ensures StateAfter(ops[..i + 1]) == After(StateAfter(ops[..i]), ops[i])
  {
    assert ops[..i + 1][..i] == ops[..i];
  }

  /** The index is a bijection from the joined identities of the messages onto the message ids. */
  ghost predicate IndexInv(o: Outbox) {
    && (forall id :: id in o.messages ==> MessageIndexed(o, id))
    && (forall identity :: identity in o.index ==> EntryNamesMessage(o, identity))
  }

  ghost predicate MessageIndexed(o: Outbox, id: string)
    requires id in o.messages
  {
    var identity := Identity(o.messages[id].organization, o.messages[id].key);
    identity in o.index && o.index[identity] == id
  }

  ghost predicate EntryNamesMessage(o: Outbox, identity: string)
    requires identity in o.index
  {
    var id := o.index[identity];
    id in o.messages && Identity(o.messages[id].organization, o.messages[id].key) == identity
  }

  lemma AfterKeepsIndex(o: Outbox, op: Operation)
    requires IndexInv(o)
    ensures IndexInv(After(o, op))
  {
    var after := After(o, op);
    hide Identity, Trim;
    forall id | id in after.messages
      ensures MessageIndexed(after, id)
    {
      assert id in o.messages ==> MessageIndexed(o, id);
    }
    forall identity | identity in after.index
      ensures EntryNamesMessage(after, identity)
    {
      assert identity in o.index ==> EntryNamesMessage(o, identity);
    }
  }

  lemma {:induction false} RunKeepsIndex(ops: seq<Operation>)
    ensures IndexInv(StateAfter(ops))
    decreases |ops|
  {
    if ops != [] {
      RunKeepsIndex(ops[..|ops| - 1]);
      AfterKeepsIndex(StateAfter(ops[..|ops| - 1]), ops[|ops| - 1]);
    }
  }

  /** After any run: messages and index entries correspond one to one. */
  lemma {:induction false} IndexIsBijection(ops: seq<Operation>)
    ensures var o := StateAfter(ops);
            && (forall id :: id in o.messages ==> exists identity :: identity in o.index && o.index[identity] == id)
            && (forall identity :: identity in o.index ==> o.index[identity] in o.messages)
            && (forall one, other :: one in o.index && other in o.index && o.index[one] == o.index[other] ==> one == other)
  {
    var o := StateAfter(ops);
    RunKeepsIndex(ops);
    forall id | id in o.messages
      ensures exists identity :: identity in o.index && o.index[identity] == id
    {
      assert MessageIndexed(o, id);
    }
    forall one, other | one in o.index && other in o.index && o.index[one] == o.index[other]
      ensures one == other
    {
      assert EntryNamesMessage(o, one) && EntryNamesMessage(o, other);
    }
    assert forall identity :: identity in o.index ==> EntryNamesMessage(o, identity);
  }

  /** Index entries, messages and deliveries are only ever added. */
  ghost predicate Grows(before: Outbox, after: Outbox) {
    && (forall identity :: identity in before.index ==> identity in after.index && after.index[identity] == before.index[identity])
    && (forall id :: id in before.messages ==> id in after.messages && before.messages[id].delivered <= after.messages[id].delivered)
  }

  lemma AfterGrows(o: Outbox, op: Operation)
    ensures Grows(o, After(o, op))
  {
    hide Identity, Trim;
  }

  lemma GrowsTransitive(a: Outbox, b: Outbox, c: Outbox)
    requires Grows(a, b) && Grows(b, c)
    ensures Grows(a, c)
  {
  }

  lemma {:induction false} RunGrows(ops: seq<Operation>, i: nat, j: nat)
    requires i <= j <= |ops|
    ensures Grows(StateAfter(ops[..i]), StateAfter(ops[..j]))
    decreases j
  {
    hide StateAfter, After;
    if i < j {
      RunGrows(ops, i, j - 1);
      StateStep(ops, j - 1);
      hide Grows;
      AfterGrows(StateAfter(ops[..j - 1]), ops[j - 1]);
      GrowsTransitive(StateAfter(ops[..i]), StateAfter(ops[..j - 1]), StateAfter(ops[..j]));
    }
  }

  /** The enqueue was answered with a message id, a new one or an old one. */
  predicate Accepted(answer: Answer) {
    answer.Created? || answer.Duplicate?
  }

  /** Two enqueues for the same organization and key give one message: the later is answered as a
      duplicate, with the id that the earlier was answered. */
  lemma OneMessagePerKey(ops: seq<Operation>, i: nat, j: nat)
    requires i < j < |ops| && ops[i].Enqueue? && ops[j].Enqueue? && Accepted(AnswerAt(ops, i))
    requires Trim(ops[i].organization) == Trim(ops[j].organization) && Trim(ops[i].key) == Trim(ops[j].key)
    requires Trim(ops[j].messageId) != ""
    ensures AnswerAt(ops, j) == Duplicate(AnswerAt(ops, i).messageId)
  {
    StateStep(ops, i);
    RunGrows(ops, i + 1, j);
    hide StateAfter, Trim, Identity;
  }

  // ---- Joined identities ----

  /** Joining loses nothing about a pair exactly when neither part contains NUL. */
  lemma IdentityIsUniqueIff(first: string, second: string)
    ensures '\0' !in first && '\0' !in second <==>
            forall other1: string, other2: string :: Identity(other1, other2) == Identity(first, second) ==> other1 == first && other2 == second
  {
    var joined := Identity(first, second);
    if '\0' in first {
      var i :| 0 <= i < |first| && first[i] == '\0';
      assert Identity(first[..i], first[i + 1..] + NUL + second) == joined;
    } else if '\0' in second {
      var i :| 0 <= i < |second| && second[i] == '\0';
      assert Identity(first + NUL + second[..i], second[i + 1..]) == joined;
    } else {
      forall other1: string, other2: string | Identity(other1, other2) == joined
        ensures other1 == first && other2 == second
      {
        SplitIsUnique(first, second, other1, other2);
      }
    }
  }

  lemma SplitIsUnique(first: string, second: string, other1: string, other2: string)
    requires '\0' !in first && '\0' !in second && Identity(other1, other2) == Identity(first, second)
    ensures other1 == first && other2 == second
  {
    var joined := Identity(first, second);
    assert joined[|other1|] == '\0';
    NulIsSeparator(first, second, |other1|);
    assert first == joined[..|first|] && second == joined[|first| + 1..];
    assert other1 == joined[..|other1|] && other2 == joined[|other1| + 1..];
  }

  lemma NulIsSeparator(first: string, second: string, i: nat)
    requires '\0' !in first && '\0' !in second && i < |Identity(first, second)| && Identity(first, second)[i] == '\0'
    ensures i == |first|
  {
    CharacterAt(first, second, i);
  }

  lemma CharacterAt(first: string, second: string, i: nat)
    requires i < |Identity(first, second)|
    ensures Identity(first, second)[i] == if i < |first| then first[i] else if i == |first| then '\0' else second[i - |first| - 1]
  {
  }

  /** So without NUL in the new message's parts, a duplicate has its organization and key. */
  lemma DuplicateHasSameKey(ops: seq<Operation>, i: nat)
    requires i < |ops| && ops[i].Enqueue? && AnswerAt(ops, i).Duplicate?
    requires '\0' !in Trim(ops[i].organization) && '\0' !in Trim(ops[i].key)
    ensures var o := StateAfter(ops[..i]);
            var id := AnswerAt(ops, i).messageId;
            id in o.messages && o.messages[id].organization == Trim(ops[i].organization) && o.messages[id].key == Trim(ops[i].key)
  {
    var o := StateAfter(ops[..i]);
    RunKeepsIndex(ops[..i]);
    var identity := Identity(Trim(ops[i].organization), Trim(ops[i].key));
    assert EntryNamesMessage(o, identity);
    var id := o.index[identity];
    SplitIsUnique(Trim(ops[i].organization), Trim(ops[i].key), o.messages[id].organization, o.messages[id].key);
  }

  /** With NUL it can be another organization's message. */
  lemma NulSharesMessages()
    ensures var o := After(Outbox(map[], map[]), Enqueue("m", "a", "b" + NUL + "c"));
            AnswerTo(o, Enqueue("n", "a" + NUL + "b", "c")) == Duplicate("m")
  {
    TrimmedParts();
    assert Identity("a", "b" + NUL + "c") == Identity("a" + NUL + "b", "c");
    var one := Enqueue("m", "a", "b" + NUL + "c");
    assert AnswerTo(Outbox(map[], map[]), one) == Created("m");
    hide Trim, Identity;
  }

  lemma TrimmedParts()
    ensures Trim("m") == "m" && Trim("n") == "n" && Trim("a") == "a" && Trim("c") == "c"
    ensures Trim("b" + NUL + "c") == "b" + NUL + "c" && Trim("a" + NUL + "b") == "a" + NUL + "b"
  {
    assert TrimEnd("b" + NUL + "c") == "b" + NUL + "c" && TrimEnd("a" + NUL + "b") == "a" + NUL + "b";
  }

  // ---- Leases ----

  predicate GrantsOn(ops: seq<Operation>, i: nat, id: string)
    requires i < |ops|
  {
    ops[i].Claim? && Trim(ops[i].messageId) == id && AnswerAt(ops, i).Claimed?
  }

  ghost predicate InTimeOrder(ops: seq<Operation>) {
    forall i, j :: 0 <= i < j < |ops| && !ops[i].Enqueue? && !ops[j].Enqueue? ==> ops[i].now <= ops[j].now
  }

  /** The lease of a message as granted by operation `i`. */
  ghost predicate LeaseIs(o: Outbox, id: string, owner: string, expiresAt: int) {
    id in o.messages && o.messages[id].leaseOwner == Some(owner) && o.messages[id].leaseExpiresAt == Some(expiresAt)
  }

  ghost predicate HasLease(o: Outbox, id: string) {
    id in o.messages && (o.messages[id].leaseOwner.Some? || o.messages[id].leaseExpiresAt.Some?)
  }

  lemma NothingLeasedAtFirst(ops: seq<Operation>, id: string)
    ensures !HasLease(StateAfter(ops[..0]), id)
  {
    assert ops[..0] == [];
  }

  lemma LeaseStays(o: Outbox, op: Operation, id: string, owner: string, expiresAt: int)
    requires LeaseIs(o, id, owner, expiresAt)
    requires !(op.Claim? && Trim(op.messageId) == id && AnswerTo(o, op).Claimed?)
    ensures LeaseIs(After(o, op), id, owner, expiresAt)
  {
    hide Identity, Trim;
  }

  lemma ClaimTakesLease(o: Outbox, op: Operation)
    requires op.Claim? && AnswerTo(o, op).Claimed?
    ensures AnswerTo(o, op).owner == Trim(op.owner)
    ensures LeaseIs(After(o, op), Trim(op.messageId), Trim(op.owner), op.now + op.leaseMilliseconds)
  {
    hide Trim;
  }

  lemma LiveLeaseBlocks(o: Outbox, op: Operation, owner: string, expiresAt: int)
    requires op.Claim? && LeaseIs(o, Trim(op.messageId), owner, expiresAt) && op.now < expiresAt
    ensures !AnswerTo(o, op).Claimed?
    ensures Trim(op.owner) != "" && op.leaseMilliseconds >= 1 && Trim(op.messageId) != "" ==> AnswerTo(o, op) == Busy(owner)
  {
    hide Trim;
  }

  lemma {:induction false} LeaseLasts(ops: seq<Operation>, i: nat, j: nat, id: string)
    requires InTimeOrder(ops) && i < j <= |ops| && GrantsOn(ops, i, id)
    requires forall k :: i < k < j && !ops[k].Enqueue? ==> ops[k].now < ops[i].now + ops[i].leaseMilliseconds
    ensures LeaseIs(StateAfter(ops[..j]), id, Trim(ops[i].owner), ops[i].now + ops[i].leaseMilliseconds)
    decreases j
  {
    hide StateAfter, After, AnswerTo, Trim, LeaseIs;
    StateStep(ops, j - 1);
    var before := StateAfter(ops[..j - 1]);
    if j == i + 1 {
      ClaimTakesLease(before, ops[i]);
    } else {
      LeaseLasts(ops, i, j - 1, id);
      if ops[j - 1].Claim? && Trim(ops[j - 1].messageId) == id {
        LiveLeaseBlocks(before, ops[j - 1], Trim(ops[i].owner), ops[i].now + ops[i].leaseMilliseconds);
      }
      LeaseStays(before, ops[j - 1], id, Trim(ops[i].owner), ops[i].now + ops[i].leaseMilliseconds);
    }
  }

  /** After a claim is granted at t for d, no claim on that message, not even by the same owner, is
      granted before t + d; a well-formed one is answered with the owner. */
  lemma LeaseIsExclusive(ops: seq<Operation>, i: nat, j: nat)
    requires InTimeOrder(ops) && i < j < |ops| && ops[i].Claim? && AnswerAt(ops, i).Claimed?
    requires ops[j].Claim? && Trim(ops[j].messageId) == Trim(ops[i].messageId) && ops[j].now < ops[i].now + ops[i].leaseMilliseconds
    ensures !AnswerAt(ops, j).Claimed?
    ensures Trim(ops[j].owner) != "" && ops[j].leaseMilliseconds >= 1 ==> AnswerAt(ops, j) == Busy(Trim(ops[i].owner))
  {
    assert Trim(ops[i].messageId) != "";
    LeaseLasts(ops, i, j, Trim(ops[i].messageId));
    LiveLeaseBlocks(StateAfter(ops[..j]), ops[j], Trim(ops[i].owner), ops[i].now + ops[i].leaseMilliseconds);
  }

  /** A lease was granted by a claim, and by the latest one granted on the message. */
  lemma {:induction false} LeaseWasGranted(ops: seq<Operation>, j: nat, id: string) returns (i: nat)
    requires j <= |ops| && HasLease(StateAfter(ops[..j]), id)
    ensures i < j && GrantsOn(ops, i, id)
    ensures forall k :: i < k < j ==> !GrantsOn(ops, k, id)
    ensures LeaseIs(StateAfter(ops[..j]), id, Trim(ops[i].owner), ops[i].now + ops[i].leaseMilliseconds)
    decreases j
  {
    hide StateAfter, After, AnswerTo, Trim, LeaseIs, HasLease;
    if j == 0 {
      NothingLeasedAtFirst(ops, id);
    } else {
      StateStep(ops, j - 1);
      var before := StateAfter(ops[..j - 1]);
      if GrantsOn(ops, j - 1, id) {
        ClaimTakesLease(before, ops[j - 1]);
        return j - 1;
      }
      LeaseWasThere(before, ops[j - 1], id);
      i := LeaseWasGranted(ops, j - 1, id);
      LeaseStays(before, ops[j - 1], id, Trim(ops[i].owner), ops[i].now + ops[i].leaseMilliseconds);
    }
  }

  lemma LeaseWasThere(o: Outbox, op: Operation, id: string)
    requires HasLease(After(o, op), id) && !(op.Claim? && Trim(op.messageId) == id && AnswerTo(o, op).Claimed?)
    ensures HasLease(o, id)
  {
    hide Identity, Trim;
  }

  /** A delivery is processed only by the holder of a live lease: the latest claim granted on the
      message is this owner's, and has not run out. */
  lemma ProcessedByLeaseHolder(ops: seq<Operation>, j: nat) returns (i: nat)
    requires j < |ops| && ops[j].Complete? && (AnswerAt(ops, j).Processed? || AnswerAt(ops, j).AlreadyDelivered?)
    ensures i < j && GrantsOn(ops, i, Trim(ops[j].messageId)) && forall k :: i < k < j ==> !GrantsOn(ops, k, Trim(ops[j].messageId))
    ensures Trim(ops[i].owner) == Trim(ops[j].owner) && ops[j].now < ops[i].now + ops[i].leaseMilliseconds
  {
    i := LeaseWasGranted(ops, j, Trim(ops[j].messageId));
  }

  // ---- Deliveries ----

  predicate ProcessesOn(ops: seq<Operation>, i: nat, id: string)
    requires i < |ops|
  {
    ops[i].Complete? && Trim(ops[i].messageId) == id && AnswerAt(ops, i).Processed?
  }

  /** A (consumer, delivery) of a message is processed once: any later completion of it that a lease
      holder attempts is a duplicate. */
  lemma ProcessedOnce(ops: seq<Operation>, i: nat, j: nat)
    requires i < j < |ops| && ops[i].Complete? && AnswerAt(ops, i).Processed? && ops[j].Complete?
    requires Trim(ops[j].messageId) == Trim(ops[i].messageId)
    requires Identity(Trim(ops[j].consumer), Trim(ops[j].delivery)) == Identity(Trim(ops[i].consumer), Trim(ops[i].delivery))
    ensures AnswerAt(ops, j) == AlreadyDelivered || AnswerAt(ops, j).Failed?
  {
    StateStep(ops, i);
    RunGrows(ops, i + 1, j);
    assert Identity(Trim(ops[i].consumer), Trim(ops[i].delivery)) in Delivered(StateAfter(ops[..i + 1]), Trim(ops[i].messageId));
    hide StateAfter, Trim, Identity;
  }

  function ProcessedCount(ops: seq<Operation>, n: nat, id: string): nat
    requires n <= |ops|
  {
    if n == 0 then 0 else ProcessedCount(ops, n - 1, id) + if ProcessesOn(ops, n - 1, id) then 1 else 0
  }

  lemma DeliveredStep(o: Outbox, op: Operation, id: string)
    ensures |Delivered(After(o, op), id)| ==
            |Delivered(o, id)| + if op.Complete? && Trim(op.messageId) == id && AnswerTo(o, op).Processed? then 1 else 0
  {
    hide Identity, Trim;
    if AnswerTo(o, op).Processed? {
      hide EnqueueAnswer, ClaimAnswer;
    } else {
      NotProcessedKeepsDelivered(o, op, id);
      hide After, AnswerTo;
    }
  }

  lemma NotProcessedKeepsDelivered(o: Outbox, op: Operation, id: string)
    requires !AnswerTo(o, op).Processed?
    ensures Delivered(After(o, op), id) == Delivered(o, id)
  {
    hide Identity, Trim;
  }

  /** Conservation: a message's delivery count is the number of completions answered `processed`. */
  lemma {:induction false} DeliveryCountIsProcessed(ops: seq<Operation>, n: nat, id: string)
    requires n <= |ops|
    ensures |Delivered(StateAfter(ops[..n]), id)| == ProcessedCount(ops, n, id)
  {
    if n > 0 {
      DeliveryCountIsProcessed(ops, n - 1, id);
      StateStep(ops, n - 1);
      DeliveredStep(StateAfter(ops[..n - 1]), ops[n - 1], id);
    } else {
      assert ops[..0] == [];
    }
  }
}
