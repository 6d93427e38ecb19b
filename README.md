# BindableBase property store, modelled in Dafny

`BindableBase` is the base class of the demo application's view models. Each
instance keeps a dictionary from property name to boxed value, raises
`PropertyChanged` when a property changes, and answers WPF's
`IDataErrorInfo` queries by validating a property's current value. This
project models that store.

- `values.dfy` (module `Values`): boxed values (`Value`), the type argument
  `T` of the generic accessors (`Ty`, with `Default` for `default(T)`,
  `HasType` for "is an instance of T", and `Cast` for `(T)value`). It also
  holds the exceptions the store throws (`Error`) and property names, which
  may be null (`PropertyName = Option<string>`).
- `store.dfy` (module `Store`): one pure function per operation. Each gives
  the new dictionary and notification log and the result or exception. Their
  contracts state the rules of the store: empty names are refused, redundant
  writes are suppressed, the first write of a default is silent, nothing else
  changes, and reads never notify.
- `bindable_base.dfy` (module `Bindable`): the class `BindableBase`. It has a
  `values` map and a `raised` log of notifications, and its methods update
  them in place, as the C# does. Each method is proved to change the state
  exactly as the matching `Store` function says.
- `store_lemmas.dfy` (module `StoreLemmas`): properties of sequences of
  calls. These cover suppression of repeated writes, the bootstrap write,
  materialisation by `GetValue<T>`, and where `SetProperty` differs from
  `SetValue`. Invariants of any run of operations are proved by induction:
  names are never removed, the log only grows by at most one entry per call,
  and every name notified by `SetValue` or `SetProperty` is stored.

Environment inputs are parameters. The owner's public properties, which the
C# reads through `TypeDescriptor`, are a `props: map<string, Value>` of
their current values. The DataAnnotations rules that
`Validator.TryValidateProperty` applies are a function
`rules: (string, Value) -> seq<string>`, which returns the error messages
of the rules a value breaks, in order. `object.Equals` on boxed values is
Dafny equality on `Value`. That is value equality for the four types
modelled (int, bool, string, object), and reference identity (`ObjRef` id)
for objects of classes that do not override `Equals`.

The model follows the code, including where the entry points check names
differently:
- `SetProperty` does not check the name. An empty name is stored and
  notified like any other. With a null name, the backing field is assigned
  before the dictionary throws `ArgumentNullException`, so the field changes
  while the store does not.
- The reflection fallback and `IsPropertyValid` throw `ArgumentNullException`
  on a null name, which the dictionary raises, rather than the
  `ArgumentException` of the other entry points.
- Validation reports only the first message (`OnValidate`). `IsPropertyValid`
  returns all messages in `results`, in rule order.

## Model

| member | source | states |
|---|---|---|
| `Values.Default` | BindableBase.cs:78 | `default(T)` is an instance of T, and it is null exactly for reference types |
| `Values.Cast` | BindableBase.cs:124 | `(T)value` succeeds exactly on instances of T and returns the value unchanged; otherwise it is InvalidCast, or NullReference for null unboxed to a value type |
| `Store.SetValueStep` | BindableBase.cs:65-89 | an empty or null name is InvalidArgument and changes nothing; writing the stored value returns false and changes nothing; otherwise the value is stored under the name, no other entry changes, and the key set gains at most that name; the log is only appended to, by exactly one entry carrying the name, except on a suppressed write or the bootstrap write (absent name, default value) |
| `Store.GetValueStep` | BindableBase.cs:110-125 | never notifies; an empty or null name is InvalidArgument; a present name returns its stored value cast to T with the store unchanged; an absent name stores and returns default(T); what is returned is what is now stored, and no other entry changes |
| `Store.SetPropertyStep` | BindableBase.cs:28-39 | returns false and changes nothing exactly when the backing field already equals the value; the backing field always ends up holding the value; otherwise the value is stored and exactly one notification carrying the name is raised, even for a first write of the default; a null name throws ArgumentNull after the field was assigned, and the store is unchanged |
| `Store.LookupStep` | BindableBase.cs:223-239 | a cached value is returned with the store unchanged; an absent name that is no property of the owner is InvalidArgument with the store unchanged; otherwise the owner's current value is cached and returned; a null name is ArgumentNull; never notifies |
| `Store.ValidityStep` | BindableBase.cs:149-159 | a null name is ArgumentNull and a name that is no property of the owner is InvalidArgument, both with the store unchanged; for a property of the owner the validated value is the cached one, else the owner's current value, which is then cached, and the result is the list of messages of the rules that value breaks; never notifies |
| `Store.FirstError` | BindableBase.cs:173-183 | the empty string when there are no failures, else the first failure's message |
| `Store.OnValidateStep` | BindableBase.cs:166-184 | an empty or null name, or a name that is no property of the owner, is InvalidArgument and changes nothing; for a property of the owner the validated value is the cached one, else the owner's current value, which is then cached, and the result is the first message of the rules that value breaks, or empty; never notifies |
| `Bindable.BindableBase.constructor` | BindableBase.cs:22 | a new object starts with an empty dictionary and no notifications |
| `Bindable.BindableBase.OnPropertyChanged` | BindableBase.cs:127-138 | on either dispatcher branch, exactly one notification carrying the name is appended and the dictionary is unchanged |
| `Bindable.BindableBase.RaisePropertyChangedUnsafe` | BindableBase.cs:140-147 | appends one notification carrying the name (null allowed) and leaves the dictionary unchanged |
| `Bindable.BindableBase.SetValue` | BindableBase.cs:65-89 | updates the dictionary and log in place and returns exactly what `Store.SetValueStep` gives for the old state |
| `Bindable.BindableBase.SetValueOfCaller` | BindableBase.cs:54-57 | the caller-member-name overload behaves exactly as `SetValue` with that name |
| `Bindable.BindableBase.GetValue` | BindableBase.cs:110-125 | updates the dictionary in place and returns exactly what `Store.GetValueStep` gives |
| `Bindable.BindableBase.SetProperty` | BindableBase.cs:28-39 | the new backing field, dictionary, log and result are exactly those of `Store.SetPropertyStep` |
| `Bindable.BindableBase.Lookup` | BindableBase.cs:223-239 | the reflection fallback caches in place exactly as `Store.LookupStep` says |
| `Bindable.BindableBase.IsPropertyValid` | BindableBase.cs:149-159 | returns true exactly when no rule fails and fills `results` with the failure messages, with the store changed as `Store.ValidityStep` says; exceptions as there |
| `Bindable.BindableBase.OnValidate` | BindableBase.cs:166-184 | returns exactly what `Store.OnValidateStep` gives, with the dictionary changed as it says |
| `Bindable.BindableBase.ErrorOf` | BindableBase.cs:200-206 | the `IDataErrorInfo` indexer answers exactly as `OnValidate` |
| `Bindable.BindableBase.Error` | BindableBase.cs:190-198 | the object-level `IDataErrorInfo.Error` is always the empty string |
| `StoreLemmas.RepeatedWriteIsSuppressed` | BindableBase.cs:72-75 | after any successful `SetValue`, repeating it returns false, raises nothing and changes nothing |
| `StoreLemmas.SameWriteTwiceNotifiesOnce` | BindableBase.cs:72-88 | writing the same non-default value twice to a fresh name returns true then false, with one notification in total |
| `StoreLemmas.DistinctWritesNotifyEach` | BindableBase.cs:72-88 | two different non-default values written in turn both return true and raise one notification each, and the second is stored |
| `StoreLemmas.BootstrapWriteIsSilent` | BindableBase.cs:77-84 | the first write of default(T) stores it, returns true and raises nothing, and writing it again returns false |
| `StoreLemmas.LaterDefaultWriteNotifies` | BindableBase.cs:72-88 | writing default(T) over a different stored value notifies once |
| `StoreLemmas.ReadMaterialisesDefault` | BindableBase.cs:117-124 | `GetValue<T>` on an absent name returns default(T) without notifying, after which `SetValue` of default(T) returns false and changes nothing |
| `StoreLemmas.ReadTwiceSameOutcome` | BindableBase.cs:110-125 | a second `GetValue<T>` of the same name returns the same outcome and leaves the state the first one produced |
| `StoreLemmas.SetPropertyNotifiesFirstDefault` | BindableBase.cs:28-39 | on an absent name, `SetProperty` with the default notifies while `SetValue` with it does not, and both store the same map |
| `StoreLemmas.SetPropertyKeepsFieldAndStoreInStep` | BindableBase.cs:35-36 | after a changing `SetProperty` with a name, the backing field and the stored value agree |
| `StoreLemmas.LookupCaches` | BindableBase.cs:225-238 | once the fallback has returned a value, a second lookup returns the same value whatever the owner's properties hold now |
| `StoreLemmas.ValidateEmptyIffValid` | BindableBase.cs:173-183 | for a property of the owner, and rules whose messages are non-empty, `OnValidate` succeeds and returns the empty string exactly when no rule fails |
| `StoreLemmas.ValidateUsesCachedValue` | BindableBase.cs:174-177 | once a value is cached, OnValidate judges it and ignores a different current value of the owner's property, leaving the store unchanged |
| `StoreLemmas.RunNeverRemovesNames` | BindableBase.cs:22-239 | over any sequence of the class's operations (SetValue, GetValue<T>, SetProperty, the fallback lookup, IsPropertyValid, OnValidate, OnPropertyChanged, RaisePropertyChangedUnsafe), the key set only grows |
| `StoreLemmas.RunAppendsAtMostOnePerCall` | BindableBase.cs:22-239 | over any sequence of those operations, the notification log is only appended to, by at most one entry per call |
| `StoreLemmas.RunKeepsNotifiedStored` | BindableBase.cs:28-89 | over any sequence of those operations without a direct call of OnPropertyChanged or RaisePropertyChangedUnsafe, every notified name has a stored value, if that held at the start |
| `StoreLemmas.DirectNotificationMayNameNothingStored` | BindableBase.cs:140-147 | a direct RaisePropertyChangedUnsafe with its default null name logs a notification for no stored property, so that invariant does not cover direct notifications |

## Left out

- The thread-affinity dispatch in `OnPropertyChanged` (BindableBase.cs:129-137): posting to the UI dispatcher at DataBind priority is concurrency. Both branches are the same "append to the log", so the model does not capture delivery timing or ordering between threads.
- The thread safety of `ConcurrentDictionary` and races between concurrent writers. The store is a sequential map, and there is no model of concurrent `SetValue` calls or of their notification counts.
- Delivery to `PropertyChanged` subscribers. The log records notifications raised. Handler invocation, the case with no subscribers, and subscription changes are not modelled.
- The `Expression<Func<T>>` overloads of `SetValue` and `GetValue<T>` and `GetPropertyName` (BindableBase.cs:47-52, 97-102, 212-221). They extract a name by runtime reflection over lambdas, so the model takes the name as given.
- `TypeDescriptor` reflection and `Validator.TryValidateProperty` are library calls. They are replaced by the `props` map and the `rules` function. The model does not capture rules that depend on the whole object, or the validator's check that the value's type fits the property.
- `VerifyPropertyName` and `ThrowOnInvalidPropertyName` (BindableBase.cs:250-273) are debug-only and compiled out of release builds.
- Types are reduced to int, bool, string and object. Nullable value types, other structs, floating point (where `Equals(NaN, NaN)` is true) and classes that override `Equals` are not represented. Equality on `ObjRef` is reference identity, so a write of a new but equal instance of such a class, which the C# suppresses, is not modelled.
- Numeric width: stored integers are unbounded, because the store does no arithmetic on them.
- MahControlsHelper.cs, RelayCommand.cs and MainViewModel.cs are not part of this model. They contain UI dialogs, a command shim over caller delegates, and view-model wiring.
