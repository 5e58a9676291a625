/** `SimpleXmlStringParser`: the configuration handed to the native XML
    loader, and `parseXmlString`, which returns the loaded element or raises
    a `SimpleXmlStringParserException` describing every libxml error. */
module Parsing {

  import opened Wrappers
  import opened PhpStrings
  import opened PhpValues
  import opened ErrorReport
  import opened Exceptions

  /** The element class every parser must produce. */
  const ElementClass: string := "SimpleXMLElement"

  /** A class name the parser accepts: the element class itself or one of
      the names `is_subclass_of` reports as its subclasses. */
  predicate ClassAccepted(className: string, subclasses: set<string>) {
    className == ElementClass || className in subclasses
  }

  /** What the native loader leaves behind: the element, or `None` where it
      returns `false`, and what `libxml_get_errors` returns, `None` when
      that is not an array. */
  datatype NativeResult<E> = NativeResult(element: Option<E>, errors: Option<seq<Value>>)

  /** The native loader, given the data and the parser's configuration. */
  type Loader<E> = (string, string, int, string, bool, Option<bool>) -> NativeResult<E>

  /** The libxml errors as `parseXmlString` sees them: a non-array is no errors. */
  function ErrorsOf<E>(n: NativeResult<E>): seq<Value> {
    if n.errors.Some? then n.errors.value else []
  }

  /** The load failed: no element, or at least one error. */
  predicate LoadFailed<E>(n: NativeResult<E>) {
    n.element.None? || |ErrorsOf(n)| > 0
  }

  /** How `parseXmlString` ends: with the element, with the exception, or
      with the PHP Error raised while rendering an error that has no string
      form. */
  datatype ParseOutcome<E> =
    | Parsed(element: E)
    | Raised(exception: SimpleXmlStringParserException)
    | HostError

  class SimpleXmlStringParser {
    var className: string
    var options: int
    var ns: string
    var prefix: bool
    var disableEntityLoader: Option<bool>

    /** Through the setters, so the class name must be accepted. */
    constructor(className: string := ElementClass, options: int := 0, ns: string := "",
                prefix: bool := false, disableEntityLoader: Option<bool> := None,
                subclasses: set<string> := {})
      requires ClassAccepted(className, subclasses)
      ensures this.className == className && this.options == options && this.ns == ns
      ensures this.prefix == prefix && this.disableEntityLoader == disableEntityLoader
    {
      this.className := className;
      this.options := options;
      this.ns := ns;
      this.prefix := prefix;
      this.disableEntityLoader := disableEntityLoader;
    }

    /** `new SimpleXmlStringParser(...)` with the class name check: `None`
        where the setter raises `InvalidArgumentException`. */
    static method Create(className: string, options: int, ns: string, prefix: bool,
                         disableEntityLoader: Option<bool>, subclasses: set<string>)
      returns (r: Option<SimpleXmlStringParser>)
      ensures r.Some? <==> ClassAccepted(className, subclasses)
      ensures r.Some? ==>
        fresh(r.value) && r.value.className == className &&
        r.value.options == options && r.value.ns == ns && r.value.prefix == prefix &&
        r.value.disableEntityLoader == disableEntityLoader
    {
      if !ClassAccepted(className, subclasses) {
        return None;
      }
      var p := new SimpleXmlStringParser(className, options, ns, prefix, disableEntityLoader, subclasses);
      r := Some(p);
    }

    /** `setClassName`: refuses a name that is neither the element class nor
        a subclass of it, leaving the parser as it was. */
    method SetClassName(className: string, subclasses: set<string>)
      returns (r: Option<SimpleXmlStringParser>)
      modifies this`className
      ensures r.Some? <==> ClassAccepted(className, subclasses)
      ensures r.Some? ==> r.value == this && this.className == className
      ensures r.None? ==> this.className == old(this.className)
    {
      if !ClassAccepted(className, subclasses) {
        return None;
      }
      this.className := className;
      r := Some(this);
    }

    method SetOptions(options: int) returns (self: SimpleXmlStringParser)
      modifies this`options
      ensures self == this && this.options == options
    {
      this.options := options;
      self := this;
    }

    method SetNs(ns: string) returns (self: SimpleXmlStringParser)
      modifies this`ns
      ensures self == this && this.ns == ns
    {
      this.ns := ns;
      self := this;
    }

    method SetPrefix(prefix: bool) returns (self: SimpleXmlStringParser)
      modifies this`prefix
      ensures self == this && this.prefix == prefix
    {
      this.prefix := prefix;
      self := this;
    }

    method SetDisableEntityLoader(disableEntityLoader: Option<bool>) returns (self: SimpleXmlStringParser)
      modifies this`disableEntityLoader
      ensures self == this && this.disableEntityLoader == disableEntityLoader
    {
      this.disableEntityLoader := disableEntityLoader;
      self := this;
    }

    /** What the native loader returns for `data` under this configuration. */
    function Load<E>(load: Loader<E>, data: string): NativeResult<E>
      reads this
    {
      load(data, className, options, ns, prefix, disableEntityLoader)
    }

    /** `parseXmlString`: the element when the load produced one without
        errors; otherwise the exception, carrying the errors and a message
        that quotes the (summarised) data and holds the error report of the
        errors against the data's lines. */
    method ParseXmlString<E>(data: string, load: Loader<E>) returns (r: ParseOutcome<E>)
      ensures var n := Load(load, data);
        (r.Parsed? <==> !LoadFailed(n)) &&
        (r.Parsed? ==> r.element == n.element.value) &&
        (r.HostError? <==> LoadFailed(n) && ListReport(ErrorsOf(n), Text(data), RenderError).None?)
      ensures var n := Load(load, data); r.Raised? ==>
        fresh(r.exception) &&
        r.exception.errors == Normalise(ErrorsOf(n)) && r.exception.code == 0 &&
        r.exception.message == FailureMessage(data, ListReport(ErrorsOf(n), Text(data), RenderError).value)
    {
      var n := load(data, className, options, ns, prefix, disableEntityLoader);
      var errors := if n.errors.Some? then n.errors.value else [];
      if n.element.None? || |errors| > 0 {
        var report := ErrorsAsString(errors, Text(data));
        if report.None? {
          return HostError;
        }
        var message := Trim(FailurePrefix + Summary(data) + FailureInfix + EOL + EOL + report.value);
        var e := new SimpleXmlStringParserException(errors, message, 0);
        return Raised(e);
      }
      r := Parsed(n.element.value);
    }
  }

  /** A message built around a report that ends like every report does
      opens with the quoted summary and ends with the report less its final
      line break. */
  lemma MessageAround(data: string, rep: string)
    requires ClosedByBreak(rep)
    ensures FailurePrefix + Summary(data) + FailureInfix <= FailureMessage(data, rep)
    ensures EndsWith(FailureMessage(data, rep), rep[..|rep| - 1])
  {
    FailureMessageTrim(data, rep);
    var head := FailurePrefix + Summary(data) + FailureInfix;
    var tail := rep[..|rep| - 1];
    assert FailureMessage(data, rep) == head + (EOL + EOL + tail);
    assert FailureMessage(data, rep) == (head + EOL + EOL) + tail;
    EndsWithConcat(head + EOL + EOL, tail, tail);
  }

  /** So the exception's message opens with the quoted summary of the data
      and ends with the whole error report less its final line break. */
  lemma RaisedMessage(data: string, errors: seq<Value>)
    requires ListReport(errors, Text(data), RenderError).Some?
    ensures var rep := ListReport(errors, Text(data), RenderError).value;
      FailurePrefix + Summary(data) + FailureInfix <= FailureMessage(data, rep) &&
      EndsWith(FailureMessage(data, rep), rep[..|rep| - 1])
  {
    ReportEnding(errors, Text(data));
    MessageAround(data, ListReport(errors, Text(data), RenderError).value);
  }
}
