/** The Ruby values that flow through the mapper: attribute values, their classes
    (as Ruby before 2.4 on a 64-bit build reports them), hash keys, and the
    raise-or-return protocol every operation follows. */
module RubyValues {
  import opened RubyStrings

  /** The value an operation returns, or the exception it raises. */
  datatype Result<+T, +E> = Success(value: T) | Failure(error: E) {
    predicate IsFailure() { Failure? }
    function PropagateFailure<U>(): Result<U, E> requires Failure? { Failure(error) }
    function Extract(): T requires Success? { value }
  }

  /** A check that either passes or raises. */
  datatype Outcome<+E> = Pass | Fail(error: E) {
    predicate IsFailure() { Fail? }
    function PropagateFailure<U>(): Result<U, E> requires Fail? { Failure(error) }
  }

  /** The classes a schema can declare and a value can have. `IntegerClass` is the
      abstract superclass of Fixnum and Bignum: no value has it as its class. */
  datatype RubyClass =
    | StringClass | IntegerClass | FixnumClass | BignumClass | FloatClass
    | SymbolClass | TrueClass | FalseClass | ArrayClass | NilClass

  /** An attribute value. A Float carries only its printed form: floating point
      arithmetic plays no part in the mapper. */
  datatype Value =
    | Str(s: string)
    | Int(i: int)
    | Float(printed: string)
    | Sym(name: string)
    | Bool(b: bool)
    | Arr(items: seq<Value>)
    | Nil

  /** The Fixnum range of a 64-bit Ruby: 62 bits of magnitude plus sign. */
  const FIXNUM_MIN: int := -0x4000_0000_0000_0000
  const FIXNUM_MAX: int := 0x3fff_ffff_ffff_ffff

  /** `v.class` */
  function ClassOf(v: Value): RubyClass
  {
    match v
    case Str(_) => StringClass
    case Int(i) => if FIXNUM_MIN <= i <= FIXNUM_MAX then FixnumClass else BignumClass
    case Float(_) => FloatClass
    case Sym(_) => SymbolClass
    case Bool(b) => if b then TrueClass else FalseClass
    case Arr(_) => ArrayClass
    case Nil => NilClass
  }

  /** Only Numeric values answer `integer?`; on anything else it raises NoMethodError. */
  predicate RespondsToIntegerP(v: Value)
  {
    v.Int? || v.Float?
  }

  /** A hash key: a Symbol or a String. Registered attributes are Symbols. */
  datatype Key = SymKey(name: string) | StrKey(name: string)

  /** `key.to_sym` */
  function ToSym(k: Key): (r: Key)
    ensures r.SymKey? && r.name == k.name
  {
    SymKey(k.name)
  }

  function Joined(parts: seq<string>, sep: string): string
  {
    if parts == [] then ""
    else if |parts| == 1 then parts[0]
    else parts[0] + sep + Joined(parts[1..], sep)
  }

  /** `to_s` of a value that is not an Array. */
  function ScalarText(v: Value): string
  {
    match v
    case Str(s) => s
    case Int(i) => IntToDecimal(i)
    case Float(p) => p
    case Sym(n) => n
    case Bool(b) => if b then "true" else "false"
    case Arr(_) => ""
    case Nil => ""
  }

  /** `inspect`, without the escaping of special characters inside strings. */
  function Inspect(v: Value): string
    decreases v
  {
    match v
    case Str(s) => "\"" + s + "\""
    case Sym(n) => ":" + n
    case Nil => "nil"
    case Arr(items) => "[" + Joined(seq(|items|, i requires 0 <= i < |items| => Inspect(items[i])), ", ") + "]"
    case _ => ScalarText(v)
  }

  /** `v.to_s`: the text a triple store gives back for an object it was given. */
  function Lexical(v: Value): string
  {
    if v.Arr? then Inspect(v) else ScalarText(v)
  }
}
