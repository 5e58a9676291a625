/** PHP values as far as the error layer can see them, and the libxml
    error record (`\LibXMLError`) whose properties hold such values. */
module PhpValues {

  import opened Wrappers
  import opened PhpStrings

  /** A PHP `mixed` value. Array keys are given as strings (an int key as
      its decimal text); an object is given by the properties `foreach`
      visits and by the result of its `__toString`, if it has one; a float
      is given by the text PHP prints for it. */
  datatype Value =
    | VError(err: ErrorRecord)
    | VArray(entries: seq<(string, Value)>)
    | VObject(props: seq<(string, Value)>, toString: Option<string>)
    | VInt(i: int)
    | VDouble(repr: string)
    | VString(s: string)
    | VBool(b: bool)
    | VNull
    | VResource(id: int)

  /** A `\LibXMLError`: its six declared properties, `null` when unset,
      and the dynamic properties PHP creates when an unknown name is assigned. */
  datatype ErrorRecord = ErrorRecord(
    level: Value,
    code: Value,
    column: Value,
    message: Value,
    file: Value,
    line: Value,
    extra: map<string, Value>)

  /** `new \LibXMLError()`: every declared property is `null`. */
  const NewRecord: ErrorRecord :=
    ErrorRecord(VNull, VNull, VNull, VNull, VNull, VNull, map[])

  /** `property_exists(\LibXMLError::class, $k)`. */
  predicate IsField(k: string) {
    k == "level" || k == "code" || k == "column" || k == "message" || k == "file" || k == "line"
  }

  /** `$record->{$k}`, `null` for a property that was never set. */
  function Property(r: ErrorRecord, k: string): Value {
    if k == "level" then r.level
    else if k == "code" then r.code
    else if k == "column" then r.column
    else if k == "message" then r.message
    else if k == "file" then r.file
    else if k == "line" then r.line
    else if k in r.extra then r.extra[k]
    else VNull
  }

  /** `$record->{$k} = $v`: the named property reads `v` afterwards and
      every other property is unchanged. */
  function SetProperty(r: ErrorRecord, k: string, v: Value): (r': ErrorRecord)
    ensures Property(r', k) == v
    ensures forall k' | k' != k :: Property(r', k') == Property(r, k')
  {
    if k == "level" then r.(level := v)
    else if k == "code" then r.(code := v)
    else if k == "column" then r.(column := v)
    else if k == "message" then r.(message := v)
    else if k == "file" then r.(file := v)
    else if k == "line" then r.(line := v)
    else r.(extra := r.extra[k := v])
  }

  /** `isset($x)`: false exactly for `null`. */
  predicate Isset(v: Value) {
    !v.VNull?
  }

  /** `(string)$v` succeeds: everything but an object without `__toString`
      (a `\LibXMLError` has none). */
  predicate HasStringForm(v: Value) {
    !v.VError? && !(v.VObject? && v.toString.None?)
  }

  /** PHP's `(string)$v`; `None` where PHP raises an Error instead. */
  function StringOf(v: Value): (r: Option<string>)
    ensures r.Some? <==> HasStringForm(v)
  {
    match v
    case VError(_) => None
    case VArray(_) => Some("Array")
    case VObject(_, t) => t
    case VInt(i) => Some(IntToString(i))
    case VDouble(repr) => Some(repr)
    case VString(s) => Some(s)
    case VBool(b) => Some(if b then "1" else "")
    case VNull => Some("")
    case VResource(id) => Some("Resource id #" + IntToString(id))
  }

  /** PHP 8's loose comparison `$v == $n` against an int, as a `switch` does. */
  predicate LooseEqualsInt(v: Value, n: int) {
    match v
    case VError(_) => n == 1          // the object is converted to 1, with a notice
    case VArray(_) => false            // an array is always greater
    case VObject(_, _) => n == 1
    case VInt(i) => i == n
    case VDouble(repr) => repr == IntToString(n)
    case VString(s) => IntegerStringValue(s) == Some(n)
    case VBool(b) => b == (n != 0)
    case VNull => n == 0
    case VResource(id) => id == n
  }

  /** An int, and the text of an int, are loosely equal to that int and no
      other; `null` and `false` match no error level. */
  lemma LooseEqualsIntCases(i: int, n: int)
    ensures LooseEqualsInt(VInt(i), n) <==> i == n
    ensures LooseEqualsInt(VString(IntToString(i)), n) <==> i == n
    ensures n != 0 ==> !LooseEqualsInt(VNull, n) && !LooseEqualsInt(VBool(false), n)
  {
    IntToStringRoundTrip(i);
  }
}
