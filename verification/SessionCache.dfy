/** `OrganizationSessionCache` of tools/spikes/p1.9-models.ts. */
module SessionCache {
  import opened Common

  datatype Context = Context(revision: string, subject: string, organization: string)

  datatype Error = NoContext | Blank

  /** Everything that a stored key holds before its resource. */
  function Prefix(c: Context): string {
    c.revision + NUL + c.subject + NUL + c.organization + NUL
  }

  function Key(c: Context, resource: string): string {
    Prefix(c) + resource
  }

  function Normalized(c: Context): Result<Context, Error> {
    if Trim(c.revision) == "" || Trim(c.subject) == "" || Trim(c.organization) == "" then Err(Blank)
    else Ok(Context(Trim(c.revision), Trim(c.subject), Trim(c.organization)))
  }

  /** What the cache is meant to be: the values of one context, by resource. */
  datatype Cache<V> = Cache(context: Option<Context>, values: map<string, V>)

  function Activated<V>(cache: Cache<V>, c: Context): Cache<V> {
    match Normalized(c)
    case Err(_) => cache
    case Ok(context) => Cache(Some(context), if cache.context == Some(context) then cache.values else map[])
  }

  function Refused<V>(cache: Cache<V>, resource: string): Option<Error> {
    if cache.context == None then Some(NoContext) else if Trim(resource) == "" then Some(Blank) else None
  }

  function Written<V>(cache: Cache<V>, resource: string, value: V): Cache<V> {
    if Refused(cache, resource).Some? then cache else cache.(values := cache.values[Trim(resource) := value])
  }

  function Found<V>(cache: Cache<V>, resource: string): Option<V> {
    if resource in cache.values then Some(cache.values[resource]) else None
  }

  function ReadAnswer<V>(cache: Cache<V>, resource: string): Result<Option<V>, Error> {
    match Refused(cache, resource)
    case Some(error) => Err(error)
    case None => Ok(Found(cache, Trim(resource)))
  }

  class OrganizationSessionCache<V> {
    var context: Option<Context>
    var values: map<string, V>
    ghost var contents: map<string, V>

    /** Every stored key carries the active context, and the values are those of `contents`. */
    ghost predicate Valid()
      reads this
    {
      && (context == None ==> values == map[] && contents == map[])
      && (context.Some? ==> Represents(context.value, values, contents))
    }

    ghost function Model(): Cache<V>
      reads this
    {
      Cache(context, contents)
    }

    constructor ()
      ensures Valid() && Model() == Cache(None, map[])
    {
      context, values, contents := None, map[], map[];
    }

    method Activate(c: Context) returns (activated: Result<Context, Error>)
      requires Valid()
      modifies this
      ensures Valid() && activated == Normalized(c) && Model() == Activated(old(Model()), c)
    {
      var revision, subject, organization := Trim(c.revision), Trim(c.subject), Trim(c.organization);
      if revision == "" || subject == "" || organization == "" {
        return Err(Blank);
      }
      var normalized := Context(revision, subject, organization);
      if context == None || context.value.revision != revision || context.value.subject != subject
         || context.value.organization != organization {
        values, contents := map[], map[];
      }
      context := Some(normalized);
      return Ok(normalized);
    }

    method Write(resource: string, value: V) returns (refused: Option<Error>)
      requires Valid()
      modifies this
      ensures Valid() && refused == Refused(old(Model()), resource) && Model() == Written(old(Model()), resource, value)
    {
      if context == None {
        return Some(NoContext);
      }
      if Trim(resource) == "" {
        return Some(Blank);
      }
      UpdateRepresents(context.value, values, contents, Trim(resource), value);
      values := values[Key(context.value, Trim(resource)) := value];
      contents := contents[Trim(resource) := value];
      return None;
    }

    method Read(resource: string) returns (read: Result<Option<V>, Error>)
      requires Valid()
      ensures read == ReadAnswer(Model(), resource)
    {
      if context == None {
        return Err(NoContext);
      }
      if Trim(resource) == "" {
        return Err(Blank);
      }
      var key := Key(context.value, Trim(resource));
      StoredIffPresent(context.value, values, contents, Trim(resource));
      assert Trim(resource) in contents ==> Holds(values, key, contents[Trim(resource)]);
      if key in values {
        return Ok(Some(values[key]));
      }
      return Ok(None);
    }

    method Size() returns (size: nat)
      requires Valid()
      ensures size == |Model().values|
    {
      return |values|;
    }
  }

  /** The stored map, keyed by context and resource, is `contents`. */
  ghost predicate Represents<V>(c: Context, values: map<string, V>, contents: map<string, V>) {
    && (forall r :: r in contents ==> Holds(values, Key(c, r), contents[r]))
    && (forall k :: k in values ==> Carries(c, k, contents))
    && |values| == |contents|
  }

  ghost predicate Holds<V>(values: map<string, V>, key: string, value: V) {
    key in values && values[key] == value
  }

  ghost predicate Carries<V>(c: Context, key: string, contents: map<string, V>) {
    exists r :: r in contents && key == Key(c, r)
  }

  lemma KeyIsInjective(c: Context, one: string, other: string)
    requires Key(c, one) == Key(c, other)
    ensures one == other
  {
    hide Prefix;
    assert one == Key(c, one)[|Prefix(c)|..] && other == Key(c, other)[|Prefix(c)|..];
  }

  lemma StoredIffPresent<V>(c: Context, values: map<string, V>, contents: map<string, V>, resource: string)
    requires Represents(c, values, contents)
    ensures resource in contents <==> Key(c, resource) in values
  {
    hide Key;
    assert resource in contents ==> Holds(values, Key(c, resource), contents[resource]);
    if Key(c, resource) in values {
      assert Carries(c, Key(c, resource), contents);
      var r :| r in contents && Key(c, resource) == Key(c, r);
      KeyIsInjective(c, resource, r);
    }
  }

  lemma UpdateHolds<V>(c: Context, values: map<string, V>, contents: map<string, V>, resource: string, value: V, r: string)
    requires Represents(c, values, contents) && (r == resource || r in contents)
    ensures Holds(values[Key(c, resource) := value], Key(c, r), contents[resource := value][r])
  {
    hide Key;
    if r != resource {
      assert Holds(values, Key(c, r), contents[r]);
      assert Key(c, r) != Key(c, resource) by {
        if Key(c, r) == Key(c, resource) {
          KeyIsInjective(c, r, resource);
        }
      }
    }
  }

  lemma UpdateCarries<V>(c: Context, values: map<string, V>, contents: map<string, V>, resource: string, value: V, k: string)
    requires Represents(c, values, contents) && (k == Key(c, resource) || k in values)
    ensures Carries(c, k, contents[resource := value])
  {
    hide Key;
    var model := contents[resource := value];
    if k == Key(c, resource) {
      assert resource in model;
    } else {
      assert Carries(c, k, contents);
      var r :| r in contents && k == Key(c, r);
      assert r in model;
    }
  }

  lemma UpdateRepresents<V>(c: Context, values: map<string, V>, contents: map<string, V>, resource: string, value: V)
    requires Represents(c, values, contents)
    ensures Represents(c, values[Key(c, resource) := value], contents[resource := value])
  {
    hide Key, Holds, Carries;
    StoredIffPresent(c, values, contents, resource);
    var after, model := values[Key(c, resource) := value], contents[resource := value];
    forall r | r in model
      ensures Holds(after, Key(c, r), model[r])
    {
      UpdateHolds(c, values, contents, resource, value, r);
    }
    forall k | k in after
      ensures Carries(c, k, model)
    {
      UpdateCarries(c, values, contents, resource, value, k);
    }
    UpdateSizes(values, contents, Key(c, resource), resource, value);
  }

  lemma UpdateSizes<V>(values: map<string, V>, contents: map<string, V>, key: string, resource: string, value: V)
    requires |values| == |contents| && (resource in contents <==> key in values)
    ensures |values[key := value]| == |contents[resource := value]|
  {
    assert values[key := value].Keys == values.Keys + {key};
    assert contents[resource := value].Keys == contents.Keys + {resource};
  }

  // ---- Runs ----

  datatype Operation<V> = Activate(context: Context) | Write(resource: string, value: V) | Read(resource: string)

  function After<V>(cache: Cache<V>, op: Operation<V>): Cache<V> {
    match op
    case Activate(context) => Activated(cache, context)
    case Write(resource, value) => Written(cache, resource, value)
    case Read(_) => cache
  }

  function CacheAfter<V>(ops: seq<Operation<V>>, n: nat): Cache<V>
    requires n <= |ops|
  {
    if n == 0 then Cache(None, map[]) else After(CacheAfter(ops, n - 1), ops[n - 1])
  }

  /** The context that is active after `n` operations: that of the latest activation which is not blank. */
  function ContextAt<V>(ops: seq<Operation<V>>, n: nat): Option<Context>
    requires n <= |ops|
  {
    if n == 0 then None
    else if ops[n - 1].Activate? && HasNoBlank(ops[n - 1].context) then Some(TrimmedContext(ops[n - 1].context))
    else ContextAt(ops, n - 1)
  }

  predicate HasNoBlank(c: Context) {
    Trim(c.revision) != "" && Trim(c.subject) != "" && Trim(c.organization) != ""
  }

  function TrimmedContext(c: Context): Context {
    Context(revision := Trim(c.revision), subject := Trim(c.subject), organization := Trim(c.organization))
  }

  /** An activation is refused iff a part is blank, and answered with its trimmed parts. */
  lemma ActivationIs(c: Context)
    ensures Normalized(c) == if HasNoBlank(c) then Ok(TrimmedContext(c)) else Err(Blank)
  {
    hide Trim;
  }

  predicate WritesTo<V>(op: Operation<V>, resource: string) {
    op.Write? && Trim(op.resource) == resource
  }

  /** Operation `i` wrote `value` to the resource, under a context that has been active ever since, and
      nothing was written to the resource later. */
  ghost predicate WroteLast<V>(ops: seq<Operation<V>>, i: nat, n: nat, resource: string, value: V)
    requires n <= |ops|
  {
    && i < n && WritesTo(ops[i], resource) && ops[i].value == value
    && ContextAt(ops, i).Some? && (forall k :: i <= k <= n ==> ContextAt(ops, k) == ContextAt(ops, i))
    && (forall k :: i < k < n ==> !WritesTo(ops[k], resource))
  }

  lemma {:induction false} ContextIsActive<V>(ops: seq<Operation<V>>, n: nat)
    requires n <= |ops|
    ensures CacheAfter(ops, n).context == ContextAt(ops, n)
    ensures ContextAt(ops, n) == None ==> CacheAfter(ops, n).values == map[]
  {
    if n > 0 {
      ContextIsActive(ops, n - 1);
      if ops[n - 1].Activate? {
        ActivationIs(ops[n - 1].context);
      }
    }
    hide Normalized, Trim, HasNoBlank, TrimmedContext;
  }

  lemma {:induction false} CachedWasWritten<V>(ops: seq<Operation<V>>, n: nat, resource: string) returns (i: nat)
    requires n <= |ops| && resource != "" && resource in CacheAfter(ops, n).values
    ensures WroteLast(ops, i, n, resource, CacheAfter(ops, n).values[resource])
  {
    hide Normalized, Trim;
    ContextIsActive(ops, n - 1);
    ContextIsActive(ops, n);
    if WritesTo(ops[n - 1], resource) {
      return n - 1;
    }
    assert ContextAt(ops, n) == ContextAt(ops, n - 1);
    i := CachedWasWritten(ops, n - 1, resource);
    assert forall k :: i < k < n ==> k == n - 1 || !WritesTo(ops[k], resource);
  }

  lemma {:induction false} WrittenIsCached<V>(ops: seq<Operation<V>>, i: nat, n: nat, resource: string, value: V)
    requires n <= |ops| && resource != "" && WroteLast(ops, i, n, resource, value)
    ensures resource in CacheAfter(ops, n).values && CacheAfter(ops, n).values[resource] == value
    decreases n
  {
    hide Normalized, Trim;
    ContextIsActive(ops, n - 1);
    ContextIsActive(ops, n);
    if i < n - 1 {
      assert WroteLast(ops, i, n - 1, resource, value);
      WrittenIsCached(ops, i, n - 1, resource, value);
    }
  }

  /** A read gives exactly the last value written to the resource since the current context became
      active: never one from an earlier context, even if the same context returns. */
  lemma {:induction false} ReadIsLastWrite<V>(ops: seq<Operation<V>>, n: nat, resource: string, value: V)
    requires n <= |ops| && resource != ""
    ensures Found(CacheAfter(ops, n), resource) == Some(value) <==> exists i :: WroteLast(ops, i, n, resource, value)
  {
    if Found(CacheAfter(ops, n), resource) == Some(value) {
      var i := CachedWasWritten(ops, n, resource);
    } else if i :| WroteLast(ops, i, n, resource, value) {
      WrittenIsCached(ops, i, n, resource, value);
    }
  }

  /** Every answer of a run, told from its operations: refused without an active context or for a blank
      resource, and otherwise the value last written, or that there is none. */
  lemma {:induction false} ReadAnswerIs<V>(ops: seq<Operation<V>>, n: nat, resource: string)
    requires n <= |ops|
    ensures var answer := ReadAnswer(CacheAfter(ops, n), resource);
            if ContextAt(ops, n) == None then answer == Err(NoContext)
            else if Trim(resource) == "" then answer == Err(Blank)
            else answer.Ok? && forall value :: answer.value == Some(value) <==> exists i :: WroteLast(ops, i, n, Trim(resource), value)
    ensures Refused(CacheAfter(ops, n), resource) ==
            if ContextAt(ops, n) == None then Some(NoContext) else if Trim(resource) == "" then Some(Blank) else None
  {
    ContextIsActive(ops, n);
    if ContextAt(ops, n).Some? && Trim(resource) != "" {
      forall value
        ensures Found(CacheAfter(ops, n), Trim(resource)) == Some(value) <==> exists i :: WroteLast(ops, i, n, Trim(resource), value)
      {
        ReadIsLastWrite(ops, n, Trim(resource), value);
      }
    }
    hide Trim, WroteLast, CacheAfter, ContextAt;
  }

  // ---- Composite identities ----

  function TrimAll(parts: seq<string>): seq<string> {
    seq(|parts|, i requires 0 <= i < |parts| => Trim(parts[i]))
  }

  datatype IdentityError = TooFewParts | BlankPart

  function CompositeIdentity(parts: seq<string>): Result<string, IdentityError> {
    if |parts| < 2 then Err(TooFewParts)
    else if "" in TrimAll(parts) then Err(BlankPart)
    else Ok(Join(TrimAll(parts), NUL))
  }

  /** An identity needs two parts or more, none of them blank. */
  lemma CompositeIdentityExistsIff(parts: seq<string>)
    ensures CompositeIdentity(parts).Ok? <==> |parts| >= 2 && forall i :: 0 <= i < |parts| ==> Trim(parts[i]) != ""
    ensures CompositeIdentity(parts) == Err(TooFewParts) <==> |parts| < 2
  {
    hide Trim;
    if i :| 0 <= i < |parts| && Trim(parts[i]) == "" {
      assert TrimAll(parts)[i] == "";
    }
  }

  /** Identities of NUL-free parts are equal only for the same parts, up to surrounding white space. */
  lemma CompositeIdentityIsInjective(parts: seq<string>, other: seq<string>)
    requires FreeOf(TrimAll(parts), '\0') && FreeOf(TrimAll(other), '\0')
    requires CompositeIdentity(parts).Ok? && CompositeIdentity(parts) == CompositeIdentity(other)
    ensures TrimAll(parts) == TrimAll(other)
  {
    JoinIsInjective(TrimAll(parts), TrimAll(other), NUL);
  }
}
