/**
 * The loosely typed values that a BindableBase keeps in its property store,
 * the static types its generic accessors are instantiated with, and the
 * error kinds its operations raise.
 */
module Values {

  /** A .NET reference that may be null: None stands for null. */
  datatype Option<+T> = None | Some(value: T)

  /** A property name as the store receives it; None is a null string. */
  type PropertyName = Option<string>

  /** string.IsNullOrEmpty */
  predicate IsNullOrEmpty(name: PropertyName)
  {
    name.None? || name.value == ""
  }

  /**
   * The type argument T of SetValue<T> and GetValue<T>: int and bool, two
   * value types that are never null, and string and object, two reference types.
   */
  datatype Ty = IntTy | BoolTy | StringTy | ObjectTy

  /**
   * A value boxed as `object`. ObjRef is an instance of some class with
   * reference identity; its id is that identity.
   */
  datatype Value = Null | IntVal(i: int) | BoolVal(b: bool) | StrVal(s: string) | ObjRef(id: nat)

  /** The exceptions the store's operations throw. */
  datatype Error =
    | InvalidArgument   // ArgumentException("Invalid property name", ...)
    | ArgumentNull      // ArgumentNullException from the dictionary on a null key
    | InvalidCast       // InvalidCastException from (T)value
    | NullReference     // NullReferenceException from unboxing null to a value type

  datatype Result<+T> = Ok(value: T) | Err(error: Error)

  /** default(T) */
  function Default(ty: Ty): (v: Value)
    ensures HasType(v, ty)
    ensures v.Null? <==> ty in {StringTy, ObjectTy}
  {
    match ty
    case IntTy => IntVal(0)
    case BoolTy => BoolVal(false)
    case StringTy => Null
    case ObjectTy => Null
  }

  /** Whether a boxed value is an instance of T (null is one of every reference type). */
  predicate HasType(v: Value, ty: Ty)
  {
    match v
    case Null => ty == StringTy || ty == ObjectTy
    case IntVal(_) => ty == IntTy || ty == ObjectTy
    case BoolVal(_) => ty == BoolTy || ty == ObjectTy
    case StrVal(_) => ty == StringTy || ty == ObjectTy
    case ObjRef(_) => ty == ObjectTy
  }

  /**
   * The cast `(T)value` from object: it succeeds exactly on instances of T,
   * leaves the value as it is, and otherwise throws the exception C# throws.
   */
  function Cast(v: Value, ty: Ty): (r: Result<Value>)
    ensures r.Ok? <==> HasType(v, ty)
    ensures r.Ok? ==> r.value == v
    ensures r.Err? ==> r.error == (if v.Null? then NullReference else InvalidCast)
  {
    if HasType(v, ty) then Ok(v)
    else if v.Null? then Err(NullReference)
    else Err(InvalidCast)
  }
}
