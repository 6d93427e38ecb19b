/**
 * BindableBase: the observable property store every view model derives from.
 * `values` is its dictionary of property values and `raised` the sequence of
 * PropertyChanged notifications it has raised, in order. Each method changes
 * them exactly as the matching function of module Store says.
 */
module Bindable {
  import opened Values
  import opened Store

  class BindableBase {
    var values: map<string, Value>
    var raised: seq<PropertyName>

    ghost function State(): Store
      reads this
    {
      Store(values, raised)
    }

    constructor ()
      ensures values == map[] && raised == []
    {
      values := map[];
      raised := [];
    }

    /**
     * OnPropertyChanged(propertyName). Raised directly on the UI thread and
     * posted to its dispatcher otherwise; either way, one notification.
     */
    method OnPropertyChanged(name: PropertyName)
      modifies this
      ensures values == old(values)
      ensures raised == old(raised) + [name]
    {
      RaisePropertyChangedUnsafe(name);
    }

    /** RaisePropertyChangedUnsafe(propertyName): invokes the PropertyChanged handlers. */
    method RaisePropertyChangedUnsafe(name: PropertyName)
      modifies this
      ensures values == old(values)
      ensures raised == old(raised) + [name]
    {
      raised := raised + [name];
    }

    /** SetValue<T>(string propertyName, T value) */
    method SetValue(name: PropertyName, ty: Ty, v: Value) returns (r: Result<bool>)
      requires HasType(v, ty)
      modifies this
      ensures Step(State(), r) == SetValueStep(old(State()), name, ty, v)
    {
      if IsNullOrEmpty(name) {
        return Err(InvalidArgument);
      }
      var k := name.value;
      if k in values && values[k] == v {
        return Ok(false);
      }
      if k !in values && v == Default(ty) {
        values := values[k := v];
        return Ok(true);
      }
      values := values[k := v];
      OnPropertyChanged(name);
      return Ok(true);
    }

    /** SetValue<T>(T value, [CallerMemberName] string propertyName): forwards to SetValue. */
    method SetValueOfCaller(ty: Ty, v: Value, callerName: PropertyName) returns (r: Result<bool>)
      requires HasType(v, ty)
      modifies this
      ensures Step(State(), r) == SetValueStep(old(State()), callerName, ty, v)
    {
      r := SetValue(callerName, ty, v);
    }

    /** GetValue<T>(string propertyName) */
    method GetValue(name: PropertyName, ty: Ty) returns (r: Result<Value>)
      modifies this
      ensures Step(State(), r) == GetValueStep(old(State()), name, ty)
    {
      if IsNullOrEmpty(name) {
        return Err(InvalidArgument);
      }
      var k := name.value;
      var value;
      if k in values {
        value := values[k];
      } else {
        value := Default(ty);
        values := values[k := value];
      }
      r := Cast(value, ty);
    }

    /**
     * SetProperty<T>(ref T storage, T value, string propertyName). The
     * backing field is passed in as `storage` and its new content returned
     * as `storage'`.
     */
    method SetProperty(storage: Value, v: Value, name: PropertyName)
      returns (r: Result<bool>, storage': Value)
      modifies this
      ensures PropertyStep(State(), storage', r) == SetPropertyStep(old(State()), storage, v, name)
    {
      storage' := storage;
      if storage == v {
        return Ok(false), storage';
      }
      storage' := v;
      if name.None? {
        return Err(ArgumentNull), storage';
      }
      values := values[name.value := v];
      OnPropertyChanged(name);
      r := Ok(true);
    }

    /**
     * The private GetValue(string propertyName) that falls back on the
     * owner's own properties; `props` holds them with their current values.
     */
    method Lookup(name: PropertyName, props: map<string, Value>) returns (r: Result<Value>)
      modifies this
      ensures Step(State(), r) == LookupStep(old(State()), name, props)
    {
      if name.None? {
        return Err(ArgumentNull);
      }
      var k := name.value;
      if k in values {
        return Ok(values[k]);
      }
      if k !in props {
        return Err(InvalidArgument);
      }
      var value := props[k];
      values := values[k := value];
      r := Ok(value);
    }

    /**
     * IsPropertyValid(propertyName, results): whether the current value
     * passes every rule, and the messages of the rules it fails.
     */
    method IsPropertyValid(name: PropertyName, props: map<string, Value>,
                           rules: (string, Value) -> seq<string>)
      returns (r: Result<bool>, results: seq<string>)
      modifies this
      ensures var spec := ValidityStep(old(State()), name, props, rules);
              && State() == spec.store
              && (spec.result.Err? ==> r == Err(spec.result.error) && results == [])
              && (spec.result.Ok? ==> r == Ok(spec.result.value == []) && results == spec.result.value)
    {
      results := [];
      var value := Lookup(name, props);
      if value.Err? {
        return Err(value.error), results;
      }
      if name.value !in props {
        return Err(InvalidArgument), results;
      }
      results := rules(name.value, value.value);
      r := Ok(results == []);
    }

    /** OnValidate(propertyName) */
    method OnValidate(name: PropertyName, props: map<string, Value>,
                      rules: (string, Value) -> seq<string>) returns (r: Result<string>)
      modifies this
      ensures Step(State(), r) == OnValidateStep(old(State()), name, props, rules)
    {
      if IsNullOrEmpty(name) {
        return Err(InvalidArgument);
      }
      var error := "";
      var value := Lookup(name, props);
      if value.Err? {
        return Err(value.error);
      }
      var valid, results := IsPropertyValid(name, props, rules);
      if valid.Err? {
        return Err(valid.error);
      }
      if !valid.value {
        error := results[0];
      }
      r := Ok(error);
    }

    /** The IDataErrorInfo indexer this[propertyName]: what OnValidate reports. */
    method ErrorOf(name: PropertyName, props: map<string, Value>,
                   rules: (string, Value) -> seq<string>) returns (r: Result<string>)
      modifies this
      ensures Step(State(), r) == OnValidateStep(old(State()), name, props, rules)
    {
      r := OnValidate(name, props, rules);
    }

    /** IDataErrorInfo.Error: the object-level error, which is always empty. */
    function Error(): (e: string)
      ensures |e| == 0
    {
      ""
    }
  }
}
