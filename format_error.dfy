/**
 * `format_error` in apps/core/helpers.py: collapses a validation-error structure
 * (a list, a message string, or a dict keyed by field name, nested) into one message,
 * following the first entry at every level.
 */
module FormatError {

  /** A Python value as format_error meets it; a dict keeps its insertion order. */
  datatype ErrorValue =
    | Text(text: string)
    | List(items: seq<ErrorValue>)
    | Dict(entries: seq<(string, ErrorValue)>)
    | Other  // any other Python value (a number, None, ...)

  /** The Python exception format_error raises. */
  datatype Failure =
    | IndexError      // errors[0] of an empty list, list(keys)[0] of an empty dict
    | AttributeError  // .keys() of a value that is neither list, str nor dict

  datatype Formatted = Value(value: ErrorValue) | Raised(failure: Failure)

  /**
   * format_error. `show` is Python's str(), applied by '{}'.format to a nested result
   * that is not a string (which happens when a list's first element is a list or dict).
   */
  function Format(errors: ErrorValue, show: ErrorValue -> string): (r: Formatted)
    ensures errors.List? ==> r == (if errors.items == [] then Raised(IndexError) else Value(errors.items[0]))
    ensures errors.Text? ==> r == Value(errors)
    ensures errors.Other? ==> r == Raised(AttributeError)
    ensures errors.Dict? && errors.entries == [] ==> r == Raised(IndexError)
    ensures errors.Dict? && errors.entries != [] ==>
              var (key, inner) := errors.entries[0];
              (r.Value? <==> Format(inner, show).Value?) &&
              (r.Value? ==> r.value.Text? && Prefix(key) <= r.value.text) &&
              (r.Value? ==> r.value == Text(Prefix(key) + Show(Format(inner, show).value, show)))
  {
    match errors
    case List(items) => if items == [] then Raised(IndexError) else Value(items[0])
    case Text(_) => Value(errors)
    case Dict(entries) =>
      if entries == [] then Raised(IndexError)
      else
        var (key, inner) := entries[0];
        (match Format(inner, show)
         case Raised(f) => Raised(f)
         case Value(v) => Value(Text(Prefix(key) + Show(v, show))))
    case Other => Raised(AttributeError)
  }

  /** '"{}": ' with the key filled in: the key in double quotes, then a colon and a space. */
  function Prefix(key: string): (p: string)
    ensures |p| == |key| + 4
    ensures p[..1] == "\"" && p[1..|key| + 1] == key && p[|key| + 1..] == "\": "
  {
    "\"" + key + "\": "
  }

  /** How '{}'.format renders a value: a string as itself, anything else through str(). */
  function Show(v: ErrorValue, show: ErrorValue -> string): (s: string)
    ensures v.Text? ==> s == v.text
    ensures !v.Text? ==> s == show(v)
  {
    if v.Text? then v.text else show(v)
  }

  /**
   * The shape validation errors take: a message, a non-empty list whose first entry is a
   * message, or a non-empty dict whose first value has that shape again.
   */
  predicate WellFormed(e: ErrorValue) {
    match e
    case Text(_) => true
    case List(items) => items != [] && items[0].Text?
    case Dict(entries) => entries != [] && WellFormed(entries[0].1)
    case Other => false
  }

  /** The path of keys format_error follows through nested dicts, outermost first. */
  function KeyPath(e: ErrorValue): seq<string>
    requires WellFormed(e)
  {
    if e.Dict? then [e.entries[0].0] + KeyPath(e.entries[0].1) else []
  }

  /** The message at the end of that path. */
  function LeafMessage(e: ErrorValue): string
    requires WellFormed(e)
  {
    match e
    case Text(t) => t
    case List(items) => items[0].text
    case Dict(entries) => LeafMessage(entries[0].1)
  }

  /** The prefixes of every key on the path, in order. */
  function Prefixes(keys: seq<string>): string {
    if keys == [] then "" else Prefix(keys[0]) + Prefixes(keys[1..])
  }

  /**
   * On well-formed errors format_error never raises and never reaches str(): it yields
   * '"k1": "k2": ... message' along the chain of first keys.
   */
  lemma {:induction false} FormatWellFormed(e: ErrorValue, show: ErrorValue -> string)
    requires WellFormed(e)
    ensures Format(e, show) == Value(Text(Prefixes(KeyPath(e)) + LeafMessage(e)))
  {
    match e
    case Text(_) =>
    case List(items) =>
    case Dict(entries) =>
      var (key, inner) := entries[0];
      var path, leaf := Prefixes(KeyPath(inner)), LeafMessage(inner);
      FormatWellFormed(inner, show);
      assert Format(e, show) == Value(Text(Prefix(key) + (path + leaf)));
      assert KeyPath(e) == [key] + KeyPath(inner);
      assert Prefixes(KeyPath(e)) == Prefix(key) + path;
      assert Prefix(key) + (path + leaf) == (Prefix(key) + path) + leaf;
  }
}
