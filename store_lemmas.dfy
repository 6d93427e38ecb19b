/**
 * What the property store guarantees across calls: the write-suppression and
 * bootstrap rules seen from a sequence of calls, the difference between
 * SetValue and SetProperty, and invariants of any run of operations (names
 * are never removed, the notification log only grows, by at most one entry
 * per call, and every notified name is stored).
 */
module StoreLemmas {
  import opened Values
  import opened Store

  /** One call on the store, with its arguments. */
  datatype Op =
    | SetValueOp(name: PropertyName, ty: Ty, v: Value)
    | GetValueOp(name: PropertyName, ty: Ty)
    | SetPropertyOp(storage: Value, v: Value, name: PropertyName)
    | LookupOp(name: PropertyName, props: map<string, Value>)
    | IsPropertyValidOp(name: PropertyName, props: map<string, Value>, rules: (string, Value) -> seq<string>)
    | ValidateOp(name: PropertyName, props: map<string, Value>, rules: (string, Value) -> seq<string>)
    | OnPropertyChangedOp(name: PropertyName)
    | RaisePropertyChangedOp(name: PropertyName)

  /** The C# compiler only lets SetValue<T> be called with a T. */
  predicate WellTyped(op: Op)
  {
    op.SetValueOp? ==> HasType(op.v, op.ty)
  }

  function Apply(s: Store, op: Op): Store
    requires WellTyped(op)
  {
    match op
    case SetValueOp(name, ty, v) => SetValueStep(s, name, ty, v).store
    case GetValueOp(name, ty) => GetValueStep(s, name, ty).store
    case SetPropertyOp(storage, v, name) => SetPropertyStep(s, storage, v, name).store
    case LookupOp(name, props) => LookupStep(s, name, props).store
    case IsPropertyValidOp(name, props, rules) => ValidityStep(s, name, props, rules).store
    case ValidateOp(name, props, rules) => OnValidateStep(s, name, props, rules).store
    case OnPropertyChangedOp(name) => s.(raised := s.raised + [name])
    case RaisePropertyChangedOp(name) => s.(raised := s.raised + [name])
  }

  /** A notification a subclass raises itself, for any name it likes. */
  predicate NotifiesDirectly(op: Op)
  {
    op.OnPropertyChangedOp? || op.RaisePropertyChangedOp?
  }

  function Run(s: Store, ops: seq<Op>): Store
    requires forall i :: 0 <= i < |ops| ==> WellTyped(ops[i])
    decreases |ops|
  {
    if ops == [] then s else Run(Apply(s, ops[0]), ops[1..])
  }

  /** Every notification in the log names a property that has a stored value. */
  ghost predicate NotifiedAreStored(s: Store)
  {
    forall i :: 0 <= i < |s.raised| ==> s.raised[i].Some? && s.raised[i].value in s.values
  }

  // ---- single calls ----

  /** A write that repeats the stored value is suppressed: false, no notification, no change. */
  lemma RepeatedWriteIsSuppressed(s: Store, name: PropertyName, ty: Ty, v: Value)
    requires HasType(v, ty)
    requires SetValueStep(s, name, ty, v).result.Ok?
    ensures var s1 := SetValueStep(s, name, ty, v).store;
            SetValueStep(s1, name, ty, v) == Step(s1, Ok(false))
  {
  }

  /**
   * Two writes of the same non-default value to a fresh name: the first
   * notifies once, the second returns false, so one notification in all.
   */
  lemma SameWriteTwiceNotifiesOnce(s: Store, k: string, ty: Ty, v: Value)
    requires k != "" && k !in s.values
    requires HasType(v, ty) && v != Default(ty)
    ensures var first := SetValueStep(s, Some(k), ty, v);
            var second := SetValueStep(first.store, Some(k), ty, v);
            && first.result == Ok(true) && second.result == Ok(false)
            && second.store.raised == s.raised + [Some(k)]
  {
  }

  /**
   * Two different non-default values in a row: both writes return true and
   * each raises one notification carrying the name.
   */
  lemma DistinctWritesNotifyEach(s: Store, k: string, ty: Ty, v1: Value, v2: Value)
    requires k != "" && k !in s.values
    requires HasType(v1, ty) && HasType(v2, ty) && v1 != Default(ty) && v1 != v2
    ensures var first := SetValueStep(s, Some(k), ty, v1);
            var second := SetValueStep(first.store, Some(k), ty, v2);
            && first.result == Ok(true) && second.result == Ok(true)
            && second.store.raised == s.raised + [Some(k), Some(k)]
            && second.store.values[k] == v2
  {
  }

  /**
   * The bootstrap write: default(T) written to a fresh name is stored without
   * notification, and writing it again returns false.
   */
  lemma BootstrapWriteIsSilent(s: Store, k: string, ty: Ty)
    requires k != "" && k !in s.values
    ensures var first := SetValueStep(s, Some(k), ty, Default(ty));
            var second := SetValueStep(first.store, Some(k), ty, Default(ty));
            && first.result == Ok(true) && first.store.raised == s.raised
            && first.store.values == s.values[k := Default(ty)]
            && second == Step(first.store, Ok(false))
  {
  }

  /**
   * Writing default(T) to a name that holds another value is no bootstrap:
   * it notifies like any other change.
   */
  lemma LaterDefaultWriteNotifies(s: Store, k: string, ty: Ty)
    requires k != "" && k in s.values && s.values[k] != Default(ty)
    ensures var r := SetValueStep(s, Some(k), ty, Default(ty));
            r.result == Ok(true) && r.store.raised == s.raised + [Some(k)]
  {
  }

  /**
   * GetValue<T> on a name never stored materialises default(T) silently, so
   * a following SetValue of default(T) is the "already stored" case.
   */
  lemma ReadMaterialisesDefault(s: Store, k: string, ty: Ty)
    requires k != "" && k !in s.values
    ensures var read := GetValueStep(s, Some(k), ty);
            && read.result == Ok(Default(ty)) && read.store.raised == s.raised
            && SetValueStep(read.store, Some(k), ty, Default(ty)) == Step(read.store, Ok(false))
  {
  }

  /**
   * GetValue<T> is idempotent on the store: reading twice leaves the state
   * the first read produced, and returns the same outcome.
   */
  lemma ReadTwiceSameOutcome(s: Store, name: PropertyName, ty: Ty)
    ensures var first := GetValueStep(s, name, ty);
            GetValueStep(first.store, name, ty) == first
  {
  }

  /**
   * Where SetValue and SetProperty differ: on a name not yet stored, writing
   * default(T) over a backing field that holds something else notifies via
   * SetProperty but not via SetValue.
   */
  lemma SetPropertyNotifiesFirstDefault(s: Store, k: string, ty: Ty, storage: Value)
    requires k != "" && k !in s.values && storage != Default(ty)
    ensures SetValueStep(s, Some(k), ty, Default(ty)).store.raised == s.raised
    ensures SetPropertyStep(s, storage, Default(ty), Some(k)).store.raised == s.raised + [Some(k)]
    ensures SetValueStep(s, Some(k), ty, Default(ty)).store.values
         == SetPropertyStep(s, storage, Default(ty), Some(k)).store.values
  {
  }

  /**
   * After SetProperty the backing field and the store agree on the property,
   * unless the value was unchanged (then nothing was written) or the name null.
   */
  lemma SetPropertyKeepsFieldAndStoreInStep(s: Store, storage: Value, v: Value, k: string)
    requires storage != v
    ensures var r := SetPropertyStep(s, storage, v, Some(k));
            r.result == Ok(true) && k in r.store.values && r.store.values[k] == r.storage
  {
  }

  /** The reflection fallback caches: a second lookup returns the same value, whatever the owner now holds. */
  lemma LookupCaches(s: Store, k: string, props: map<string, Value>, later: map<string, Value>)
    requires LookupStep(s, Some(k), props).result.Ok?
    ensures var first := LookupStep(s, Some(k), props);
            LookupStep(first.store, Some(k), later) == Step(first.store, first.result)
  {
  }

  /**
   * When no rule reports an empty message, OnValidate's answer is empty
   * exactly when the property passes every rule.
   */
  lemma ValidateEmptyIffValid(s: Store, k: string, props: map<string, Value>,
                              rules: (string, Value) -> seq<string>)
    requires k != "" && k in props
    requires forall n, v, i :: 0 <= i < |rules(n, v)| ==> rules(n, v)[i] != ""
    ensures var r := OnValidateStep(s, Some(k), props, rules);
            && r.result.Ok?
            && (r.result.value == "" <==> rules(k, r.store.values[k]) == [])
  {
  }

  /**
   * OnValidate judges the cached value, not the owner's current one: once a
   * value is cached, a different value of the owner's property is not seen.
   */
  lemma ValidateUsesCachedValue(s: Store, k: string, cached: Value, current: Value,
                                rules: (string, Value) -> seq<string>)
    requires k != "" && k in s.values && s.values[k] == cached
    ensures OnValidateStep(s, Some(k), map[k := current], rules)
         == Step(s, Ok(FirstError(rules(k, cached))))
  {
    assert s.values[k := cached] == s.values;
  }

  // ---- any run of calls ----

  /** No operation ever removes a name: the key set only grows. */
  lemma {:induction false} RunNeverRemovesNames(s: Store, ops: seq<Op>)
    requires forall i :: 0 <= i < |ops| ==> WellTyped(ops[i])
    ensures s.values.Keys <= Run(s, ops).values.Keys
    decreases |ops|
  {
    if ops != [] {
      var s1 := Apply(s, ops[0]);
      assert s.values.Keys <= s1.values.Keys;
      RunNeverRemovesNames(s1, ops[1..]);
    }
  }

  /** The notification log is only appended to, and by at most one entry per call. */
  lemma {:induction false} RunAppendsAtMostOnePerCall(s: Store, ops: seq<Op>)
    requires forall i :: 0 <= i < |ops| ==> WellTyped(ops[i])
    ensures Extends(s.raised, Run(s, ops).raised)
    ensures |Run(s, ops).raised| <= |s.raised| + |ops|
    decreases |ops|
  {
    if ops != [] {
      var s1 := Apply(s, ops[0]);
      assert Extends(s.raised, s1.raised) && |s1.raised| <= |s.raised| + 1;
      RunAppendsAtMostOnePerCall(s1, ops[1..]);
      var t := Run(s1, ops[1..]);
      assert t.raised[..|s.raised|] == t.raised[..|s1.raised|][..|s.raised|];
    }
  }

  /** One call other than a direct notification keeps every notified name stored. */
  lemma ApplyKeepsNotifiedStored(s: Store, op: Op)
    requires WellTyped(op) && !NotifiesDirectly(op) && NotifiedAreStored(s)
    ensures NotifiedAreStored(Apply(s, op))
  {
  }

  /**
   * In any run without direct notifications, every name the store has
   * notified about holds a stored value: SetValue and SetProperty only
   * notify for a name they have just stored.
   */
  lemma {:induction false} RunKeepsNotifiedStored(s: Store, ops: seq<Op>)
    requires forall i :: 0 <= i < |ops| ==> WellTyped(ops[i])
    requires forall i :: 0 <= i < |ops| ==> !NotifiesDirectly(ops[i])
    requires NotifiedAreStored(s)
    ensures NotifiedAreStored(Run(s, ops))
    decreases |ops|
  {
    if ops != [] {
      ApplyKeepsNotifiedStored(s, ops[0]);
      RunKeepsNotifiedStored(Apply(s, ops[0]), ops[1..]);
    }
  }

  /**
   * Direct notifications escape that invariant: RaisePropertyChangedUnsafe
   * with its default null name logs a notification for no stored property.
   */
  lemma DirectNotificationMayNameNothingStored(s: Store)
    requires NotifiedAreStored(s)
    ensures !NotifiedAreStored(Run(s, [RaisePropertyChangedOp(None)]))
  {
    var s1 := Apply(s, RaisePropertyChangedOp(None));
    assert Run(s, [RaisePropertyChangedOp(None)]) == Run(s1, []) == s1;
    assert s1.raised[|s.raised|] == None;
  }
}
