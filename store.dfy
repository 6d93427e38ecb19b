/**
 * The property store of BindableBase as a state machine: the dictionary from
 * property name to boxed value, and the log of PropertyChanged notifications
 * raised so far. Each function below gives the new state and the outcome of
 * one operation of the class; the class methods in module Bindable are
 * proved to change their state exactly as these functions say.
 */
module Store {
  import opened Values

  datatype Store = Store(values: map<string, Value>, raised: seq<PropertyName>)

  /** The state after an operation and what the operation returned or threw. */
  datatype Step<+T> = Step(store: Store, result: Result<T>)

  /** SetProperty also writes through its `ref storage` parameter. */
  datatype PropertyStep = PropertyStep(store: Store, storage: Value, result: Result<bool>)

  /** No name is dropped and no stored value changes, except possibly the one under `k`. */
  ghost predicate KeepsOthers(before: map<string, Value>, after: map<string, Value>, k: string)
  {
    && before.Keys <= after.Keys
    && forall n :: n in before && n != k ==> after[n] == before[n]
  }

  /** The notification log is only ever appended to. */
  ghost predicate Extends(before: seq<PropertyName>, after: seq<PropertyName>)
  {
    |before| <= |after| && after[..|before|] == before
  }

  /** The first-ever write of default(T): stored, but raises no notification. */
  predicate IsBootstrap(s: Store, k: string, ty: Ty, v: Value)
  {
    k !in s.values && v == Default(ty)
  }

  /** SetValue<T>(string propertyName, T value) */
  function SetValueStep(s: Store, name: PropertyName, ty: Ty, v: Value): (r: Step<bool>)
    requires HasType(v, ty)
    // empty and null names are refused and nothing changes
    ensures r.result.Err? <==> IsNullOrEmpty(name)
    ensures r.result.Err? ==> r.result.error == InvalidArgument && r.store == s
    // a write of the value already stored reports false and changes nothing
    ensures r.result == Ok(false) <==>
              !IsNullOrEmpty(name) && name.value in s.values && s.values[name.value] == v
    ensures r.result == Ok(false) ==> r.store == s
    // otherwise the value is stored under the name and no other entry changes
    ensures r.result.Ok? ==>
              && name.value in r.store.values && r.store.values[name.value] == v
              && r.store.values.Keys == s.values.Keys + {name.value}
              && KeepsOthers(s.values, r.store.values, name.value)
    // exactly one notification, carrying the name, unless nothing changed or it is the bootstrap write
    ensures Extends(s.raised, r.store.raised)
    ensures |r.store.raised| <= |s.raised| + 1
    ensures |r.store.raised| == |s.raised| + 1 <==>
              r.result == Ok(true) && !IsBootstrap(s, name.value, ty, v)
    ensures |r.store.raised| == |s.raised| + 1 ==> r.store.raised[|s.raised|] == name
  {
    if IsNullOrEmpty(name) then
      Step(s, Err(InvalidArgument))
    else
      var k := name.value;
      if k in s.values && s.values[k] == v then
        Step(s, Ok(false))
      else if IsBootstrap(s, k, ty, v) then
        Step(s.(values := s.values[k := v]), Ok(true))
      else
        Step(Store(s.values[k := v], s.raised + [name]), Ok(true))
  }

  /** GetValue<T>(string propertyName) */
  function GetValueStep(s: Store, name: PropertyName, ty: Ty): (r: Step<Value>)
    // never notifies
    ensures r.store.raised == s.raised
    // only an absent name is added, with default(T); nothing else changes
    ensures KeepsOthers(s.values, r.store.values, if name.Some? then name.value else "")
    ensures r.result.Err? <==>
              IsNullOrEmpty(name) || (name.value in s.values && !HasType(s.values[name.value], ty))
    ensures IsNullOrEmpty(name) ==> r.store == s && r.result == Err(InvalidArgument)
    ensures !IsNullOrEmpty(name) && name.value in s.values ==>
              r.store == s && r.result == Cast(s.values[name.value], ty)
    ensures !IsNullOrEmpty(name) && name.value !in s.values ==>
              r.store.values == s.values[name.value := Default(ty)] && r.result == Ok(Default(ty))
    // what is returned is what is now stored, and it is an instance of T
    ensures r.result.Ok? ==>
              name.value in r.store.values && r.store.values[name.value] == r.result.value
              && HasType(r.result.value, ty)
  {
    if IsNullOrEmpty(name) then
      Step(s, Err(InvalidArgument))
    else
      var k := name.value;
      if k !in s.values then
        Step(s.(values := s.values[k := Default(ty)]), Ok(Default(ty)))
      else
        Step(s, Cast(s.values[k], ty))
  }

  /**
   * SetProperty<T>(ref T storage, T value, string propertyName). The name is
   * not checked: an empty name is stored like any other, and a null name
   * makes the dictionary throw after `storage` has already been assigned.
   */
  function SetPropertyStep(s: Store, storage: Value, v: Value, name: PropertyName): (r: PropertyStep)
    // the backing field always ends up holding the new value
    ensures r.storage == v
    ensures r.result == Ok(false) <==> storage == v
    ensures r.result.Err? <==> storage != v && name.None?
    ensures r.result.Err? ==> r.result.error == ArgumentNull
    // unless the value was unchanged or the name null: stored, and exactly one notification
    ensures r.result == Ok(true) ==>
              && r.store.values == s.values[name.value := v]
              && r.store.raised == s.raised + [name]
    ensures !r.result.Ok? || r.result.value == false ==> r.store == s
  {
    if storage == v then
      PropertyStep(s, storage, Ok(false))
    else if name.None? then
      PropertyStep(s, v, Err(ArgumentNull))
    else
      PropertyStep(Store(s.values[name.value := v], s.raised + [name]), v, Ok(true))
  }

  /**
   * The private GetValue(string propertyName): a cached value, or else the
   * owner's own property of that name read by reflection and then cached.
   * `props` holds the owner's public properties and their current values.
   */
  function LookupStep(s: Store, name: PropertyName, props: map<string, Value>): (r: Step<Value>)
    ensures r.store.raised == s.raised
    ensures name.None? ==> r.store == s && r.result == Err(ArgumentNull)
    // a cached value is returned as it is
    ensures name.Some? && name.value in s.values ==>
              r.store == s && r.result == Ok(s.values[name.value])
    // an unknown property is an argument error
    ensures name.Some? && name.value !in s.values && name.value !in props ==>
              r.store == s && r.result == Err(InvalidArgument)
    // otherwise the owner's current value is cached and returned
    ensures name.Some? && name.value !in s.values && name.value in props ==>
              r.store.values == s.values[name.value := props[name.value]]
              && r.result == Ok(props[name.value])
    ensures r.result.Ok? ==>
              name.Some? && name.value in r.store.values && r.store.values[name.value] == r.result.value
  {
    if name.None? then
      Step(s, Err(ArgumentNull))
    else if name.value in s.values then
      Step(s, Ok(s.values[name.value]))
    else if name.value in props then
      Step(s.(values := s.values[name.value := props[name.value]]), Ok(props[name.value]))
    else
      Step(s, Err(InvalidArgument))
  }

  /**
   * The value validation sees for a property: the cached one when the name
   * is cached, else the owner's current value.
   */
  function Validated(s: Store, k: string, props: map<string, Value>): (w: Value)
    requires k in s.values || k in props
  {
    if k in s.values then s.values[k] else props[k]
  }

  /**
   * IsPropertyValid(propertyName, results): the messages of the rules the
   * current value breaks (the property is valid when there are none).
   * Validator.TryValidateProperty refuses a name that is no property of the owner.
   */
  function ValidityStep(s: Store, name: PropertyName, props: map<string, Value>,
                        rules: (string, Value) -> seq<string>): (r: Step<seq<string>>)
    ensures r.store.raised == s.raised
    ensures KeepsOthers(s.values, r.store.values, if name.Some? then name.value else "")
    ensures r.result.Ok? ==>
              && name.Some? && name.value in props
              && name.value in r.store.values
              && r.result.value == rules(name.value, r.store.values[name.value])
    ensures name.Some? && name.value in s.values && name.value in props ==>
              r == Step(s, Ok(rules(name.value, s.values[name.value])))
    // the exceptions: a null name, and a name that is no property of the owner
    ensures name.None? ==> r == Step(s, Err(ArgumentNull))
    ensures name.Some? && name.value !in props ==> r == Step(s, Err(InvalidArgument))
    // a property of the owner: the cached value, else the owner's current one (now cached), is validated
    ensures name.Some? && name.value in props ==>
              var w := Validated(s, name.value, props);
              r == Step(s.(values := s.values[name.value := w]), Ok(rules(name.value, w)))
  {
    var looked := LookupStep(s, name, props);
    if looked.result.Err? then
      Step(looked.store, Err(looked.result.error))
    else if name.value !in props then
      Step(looked.store, Err(InvalidArgument))
    else
      Step(looked.store, Ok(rules(name.value, looked.result.value)))
  }

  /** The text OnValidate reports: empty when valid, else the first failure's message. */
  function FirstError(failures: seq<string>): (e: string)
    ensures failures == [] ==> e == ""
    ensures failures != [] ==> e == failures[0]
  {
    if failures == [] then "" else failures[0]
  }

  /** OnValidate(propertyName), which is also what the IDataErrorInfo indexer returns. */
  function OnValidateStep(s: Store, name: PropertyName, props: map<string, Value>,
                          rules: (string, Value) -> seq<string>): (r: Step<string>)
    ensures r.store.raised == s.raised
    ensures IsNullOrEmpty(name) ==> r == Step(s, Err(InvalidArgument))
    ensures KeepsOthers(s.values, r.store.values, if name.Some? then name.value else "")
    ensures r.result.Ok? ==>
              && !IsNullOrEmpty(name) && name.value in props
              && name.value in r.store.values
              && r.result.value == FirstError(rules(name.value, r.store.values[name.value]))
    // on a name neither cached nor a property of the owner: an argument error, nothing cached
    ensures !IsNullOrEmpty(name) && name.value !in s.values && name.value !in props ==>
              r == Step(s, Err(InvalidArgument))
    // a cached name that is no property of the owner is refused by the validator
    ensures !IsNullOrEmpty(name) && name.value !in props ==> r == Step(s, Err(InvalidArgument))
    // a property of the owner: the first failure for the cached value, else for the owner's current one (now cached)
    ensures !IsNullOrEmpty(name) && name.value in props ==>
              var w := Validated(s, name.value, props);
              r == Step(s.(values := s.values[name.value := w]), Ok(FirstError(rules(name.value, w))))
  {
    if IsNullOrEmpty(name) then
      Step(s, Err(InvalidArgument))
    else
      var looked := LookupStep(s, name, props);
      if looked.result.Err? then
        Step(looked.store, Err(looked.result.error))
      else
        var checked := ValidityStep(looked.store, name, props, rules);
        if checked.result.Err? then
          Step(checked.store, Err(checked.result.error))
        else
          Step(checked.store, Ok(FirstError(checked.result.value)))
  }
}
