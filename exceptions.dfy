/** `SimpleXmlStringParserException`: the exception raised when parsing
    fails, and the conversion of arbitrary values into libxml error records
    that its constructor applies to the errors it is given. */
module Exceptions {

  import opened Wrappers
  import opened PhpStrings
  import opened PhpValues

  // ---------------------------------------------------------------------
  // valueToLibXmlError
  // ---------------------------------------------------------------------

  /** A fresh record after `$result->{$k} = $v` for every entry, in order. */
  function CopyEntries(entries: seq<(string, Value)>): ErrorRecord
    decreases |entries|
  {
    if entries == [] then NewRecord
    else
      var last := entries[|entries| - 1];
      SetProperty(CopyEntries(entries[..|entries| - 1]), last.0, last.1)
  }

  /** Some key names a declared property of `\LibXMLError`. */
  predicate HasFieldKey(entries: seq<(string, Value)>) {
    exists k | 0 <= k < |entries| :: IsField(entries[k].0)
  }

  /** The fallback: a record whose only property is `message`, unless the
      text is empty or whitespace. */
  function MessageRecord(text: string): Option<ErrorRecord> {
    if Trim(text) == "" then None else Some(NewRecord.(message := VString(text)))
  }

  /** What `valueToLibXmlError` returns, `None` standing for `null`. */
  function ToLibXmlError(v: Value): Option<ErrorRecord> {
    match v
    case VError(r) => Some(r)
    case VArray(es) => if HasFieldKey(es) then Some(CopyEntries(es)) else None
    case VObject(ps, t) =>
      if HasFieldKey(ps) then Some(CopyEntries(ps))
      else if t.Some? then MessageRecord(t.value)
      else None
    case VInt(i) => MessageRecord(IntToString(i))
    case VDouble(repr) => MessageRecord(repr)
    case VString(s) => MessageRecord(s)
    case _ => None
  }

  /** The `foreach` of `valueToLibXmlError`: every entry assigned to a
      fresh record, in order, and whether any key was a declared property. */
  method CopyProperties(entries: seq<(string, Value)>) returns (result: ErrorRecord, matched: bool)
    ensures result == CopyEntries(entries)
    ensures matched <==> HasFieldKey(entries)
  {
    result := NewRecord;
    matched := false;
    var i := 0;
    while i < |entries|
      invariant 0 <= i <= |entries|
      invariant result == CopyEntries(entries[..i])
      invariant matched <==> HasFieldKey(entries[..i])
    {
      var (k, v) := entries[i];
      if IsField(k) {
        matched := true;
      }
      assert entries[..i + 1][..i] == entries[..i];
      result := SetProperty(result, k, v);
      i := i + 1;
    }
    assert entries[..i] == entries;
  }

  /** `valueToLibXmlError`: a record passes through; the entries of an
      array or object are copied onto a fresh record, kept when any key
      was a declared property; otherwise an object with `__toString`, a
      float, an int or a string becomes the message of a fresh record. */
  method ValueToLibXmlError(value: Value) returns (r: Option<ErrorRecord>)
    ensures r == ToLibXmlError(value)
  {
    if value.VError? {
      return Some(value.err);
    }
    if value.VArray? || value.VObject? {
      var result, matched := CopyProperties(if value.VArray? then value.entries else value.props);
      if matched {
        return Some(result);
      }
    }
    var message: string;
    match value {
      case VObject(_, t) =>
        if t.None? {
          return None;
        }
        message := t.value;
      case VDouble(repr) =>
        message := repr;
      case VInt(n) =>
        message := IntToString(n);
      case VString(s) =>
        message := s;
      case _ =>
        return None;
    }
    if Trim(message) == "" {
      return None;
    }
    r := Some(NewRecord.(message := VString(message)));
  }

  /** After copying, a property holds the value of the last entry with its
      name, and is `null` when no entry has its name. */
  lemma {:induction false} CopiedValue(entries: seq<(string, Value)>, name: string, j: nat)
    requires j < |entries| && entries[j].0 == name
    requires forall j' | j < j' < |entries| :: entries[j'].0 != name
    ensures Property(CopyEntries(entries), name) == entries[j].1
    decreases |entries|
  {
    if j < |entries| - 1 {
      var init := entries[..|entries| - 1];
      assert init[j] == entries[j];
      CopiedValue(init, name, j);
    }
  }

  lemma {:induction false} CopiedAbsent(entries: seq<(string, Value)>, name: string)
    requires forall j | 0 <= j < |entries| :: entries[j].0 != name
    ensures Property(CopyEntries(entries), name) == VNull
    decreases |entries|
  {
    if entries != [] {
      var init := entries[..|entries| - 1];
      assert forall j | 0 <= j < |init| :: init[j] == entries[j];
      CopiedAbsent(init, name);
    }
  }

  /** An array converts exactly when one of its keys is a declared
      property; then every property is copied from it. */
  lemma ArrayConversion(es: seq<(string, Value)>)
    ensures ToLibXmlError(VArray(es)).Some? <==> exists k | 0 <= k < |es| :: IsField(es[k].0)
    ensures ToLibXmlError(VArray(es)).Some? ==> ToLibXmlError(VArray(es)).value == CopyEntries(es)
  {
  }

  /** An object converts when one of its property names is a declared one,
      into the record copied from its properties; otherwise only through a
      `__toString` giving a non-blank text, which becomes the message of a
      record with nothing else set. */
  lemma ObjectConversion(ps: seq<(string, Value)>, t: Option<string>)
    ensures ToLibXmlError(VObject(ps, t)).Some? <==>
      HasFieldKey(ps) || (t.Some? && Trim(t.value) != "")
    ensures HasFieldKey(ps) ==> ToLibXmlError(VObject(ps, t)) == Some(CopyEntries(ps))
    ensures !HasFieldKey(ps) && t.Some? && Trim(t.value) != "" ==>
      ToLibXmlError(VObject(ps, t)) == Some(NewRecord.(message := VString(t.value)))
  {
  }

  /** A string (or float) converts exactly when it is not blank, into a
      record with that message and nothing else set. */
  lemma TextConversion(s: string)
    ensures ToLibXmlError(VString(s)).Some? <==> Trim(s) != ""
    ensures ToLibXmlError(VDouble(s)) == ToLibXmlError(VString(s))
    ensures Trim(s) != "" ==>
      ToLibXmlError(VString(s)).value == NewRecord.(message := VString(s))
  {
  }

  /** Every int converts: its text is never blank. */
  lemma IntConverts(i: int)
    ensures ToLibXmlError(VInt(i)) == Some(NewRecord.(message := VString(IntToString(i))))
  {
    IntToStringTrimmed(i);
  }

  /** A bool, `null` or a resource never converts. */
  lemma OtherTypesRejected(v: Value)
    requires v.VBool? || v.VNull? || v.VResource?
    ensures ToLibXmlError(v).None?
  {
  }

  /** A converted value that did not come through a declared key always has
      a set, non-blank message. */
  lemma FallbackHasMessage(v: Value)
    requires ToLibXmlError(v).Some?
    requires !v.VError? && !(v.VArray? && HasFieldKey(v.entries)) && !(v.VObject? && HasFieldKey(v.props))
    ensures var m := ToLibXmlError(v).value.message;
      m.VString? && Trim(m.s) != ""
  {
    if v.VInt? {
      IntToStringTrimmed(v.i);
    }
  }

  /** A declared key whose value is `null` is enough: the record returned
      then has no property set at all. */
  lemma NullFieldConverts()
    ensures ToLibXmlError(VArray([("message", VNull)])) == Some(NewRecord)
  {
    var es := [("message", VNull)];
    assert IsField(es[0].0);
    assert es[..0] == [];
  }

  // ---------------------------------------------------------------------
  // The constructor's filter
  // ---------------------------------------------------------------------

  /** The records kept from the given values: each value converted, the
      ones that fail dropped, order kept. */
  function Normalise(xs: seq<Value>): seq<ErrorRecord>
    decreases |xs|
  {
    if xs == [] then []
    else
      var c := ToLibXmlError(xs[|xs| - 1]);
      Normalise(xs[..|xs| - 1]) + (if c.Some? then [c.value] else [])
  }

  /** Records as values, in order. */
  function AsValues(es: seq<ErrorRecord>): (vs: seq<Value>)
    ensures |vs| == |es|
    ensures forall k | 0 <= k < |es| :: vs[k] == VError(es[k])
    decreases |es|
  {
    if es == [] then [] else AsValues(es[..|es| - 1]) + [VError(es[|es| - 1])]
  }

  lemma {:induction false} NormaliseAppend(a: seq<Value>, b: seq<Value>)
    ensures Normalise(a + b) == Normalise(a) + Normalise(b)
    decreases |b|
  {
    if b == [] {
      assert a + b == a;
    } else {
      assert (a + b)[..|a + b| - 1] == a + b[..|b| - 1];
      NormaliseAppend(a, b[..|b| - 1]);
    }
  }

  /** Records pass through unchanged, so normalising what `getErrors`
      returns gives the same list again. */
  lemma {:induction false} NormaliseRecords(es: seq<ErrorRecord>)
    ensures Normalise(AsValues(es)) == es
    decreases |es|
  {
    if es != [] {
      var vs := AsValues(es);
      var init := es[..|es| - 1];
      assert vs[..|vs| - 1] == AsValues(init);
      NormaliseRecords(init);
      assert es == init + [es[|es| - 1]];
    }
  }

  /** Every kept record is the conversion of some value of the list, and
      no more records are kept than values given. */
  lemma {:induction false} NormaliseMembers(xs: seq<Value>)
    ensures |Normalise(xs)| <= |xs|
    ensures forall e | e in Normalise(xs) :: exists k | 0 <= k < |xs| :: ToLibXmlError(xs[k]) == Some(e)
    ensures forall k | 0 <= k < |xs| && ToLibXmlError(xs[k]).Some? :: ToLibXmlError(xs[k]).value in Normalise(xs)
    decreases |xs|
  {
    if xs != [] {
      var init := xs[..|xs| - 1];
      NormaliseMembers(init);
      forall e | e in Normalise(xs)
        ensures exists k | 0 <= k < |xs| :: ToLibXmlError(xs[k]) == Some(e)
      {
        if e in Normalise(init) {
          var k :| 0 <= k < |init| && ToLibXmlError(init[k]) == Some(e);
          assert xs[k] == init[k];
        } else {
          assert ToLibXmlError(xs[|xs| - 1]) == Some(e);
        }
      }
      forall k | 0 <= k < |xs| && ToLibXmlError(xs[k]).Some?
        ensures ToLibXmlError(xs[k]).value in Normalise(xs)
      {
        if k < |init| {
          assert xs[k] == init[k];
        }
      }
    }
  }

  // ---------------------------------------------------------------------
  // The exception
  // ---------------------------------------------------------------------

  /** The exception: its message and code as given, and the errors it was
      given as records, the ones that do not convert left out. */
  class SimpleXmlStringParserException {
    const message: string
    const code: int
    var errors: seq<ErrorRecord>

    constructor(inputs: seq<Value> := [], message: string := "", code: int := 0)
      ensures this.message == message && this.code == code
      ensures errors == Normalise(inputs)
    {
      this.message := message;
      this.code := code;
      errors := [];
      new;
      var i := 0;
      while i < |inputs|
        invariant 0 <= i <= |inputs|
        invariant errors == Normalise(inputs[..i])
      {
        var error := ValueToLibXmlError(inputs[i]);
        assert inputs[..i + 1][..i] == inputs[..i];
        if error.Some? {
          errors := errors + [error.value];
        }
        i := i + 1;
      }
      assert inputs[..i] == inputs;
    }

    /** `getErrors`: only records, which the filter would keep as they are. */
    function GetErrors(): (es: seq<ErrorRecord>)
      reads this
      ensures es == errors
      ensures Normalise(AsValues(es)) == es
    {
      NormaliseRecords(errors);
      errors
    }
  }
}
