/**
 * The error model of src/errors.rs. A `LineError` is an error kind and a
 * location path stored innermost segment first: an outer frame adds its
 * segment by pushing, and the path is reversed only when the error is emitted.
 * `ValError` keeps collectible line errors apart from fatal internal errors.
 */
module Errors {
  import opened Wrappers
  import opened Field

  /**
   * The kinds of collectible error. The enum in errors.rs lacks `IntTooBig`,
   * which the integer validator's streaming path raises; it is included here.
   */
  datatype ErrorType = MissingField | StringType | StringUnicode | IntType | IntTooBig | DictType
  {
    /** `to_str`: the kind's name as `Debug` prints it. */
    function Name(): string
    {
      match this
      case MissingField => "MissingField"
      case StringType => "StringType"
      case StringUnicode => "StringUnicode"
      case IntType => "IntType"
      case IntTooBig => "IntTooBig"
      case DictType => "DictType"
    }
  }

  /** One location segment: a map key (`S`) or a sequence index (`I`). */
  datatype LocItem = S(s: string) | I(i: i64)
  {
    function ToObject(): PyObject
    {
      match this
      case S(s) => PyStr(s)
      case I(i) => PyInt(i as int)
    }
  }

  /** `s` back to front. */
  function Reverse<T>(s: seq<T>): (r: seq<T>)
    ensures |r| == |s|
    ensures forall i | 0 <= i < |s| :: r[i] == s[|s| - 1 - i]
  {
    if |s| == 0 then [] else [s[|s| - 1]] + Reverse(s[..|s| - 1])
  }

  /** A located error; `revLoc` holds the path innermost segment first. */
  datatype LineError = LineError(errorType: ErrorType, revLoc: seq<LocItem>)
  {
    /** The path as emitted: outermost segment first. */
    function Location(): (r: seq<LocItem>)
      ensures |r| == |revLoc|
      ensures forall i | 0 <= i < |r| :: r[i] == revLoc[|revLoc| - 1 - i]
    {
      Reverse(revLoc)
    }

    /** What an outer frame does to an error passing through it: push its own segment. */
    function WithLoc(loc: LocItem): (e: LineError)
      ensures e.errorType == errorType
      ensures |e.revLoc| == |revLoc| + 1 && e.revLoc[..|revLoc|] == revLoc && e.revLoc[|revLoc|] == loc
    {
      this.(revLoc := revLoc + [loc])
    }

    /** `to_object`: the dict `{"error_type": name, "location": [outermost, ..., innermost]}`. */
    function ToObject(): (r: PyObject)
      ensures r.PyDict? && |r.items| == 2
      ensures r.items[0] == Item(PyStr("error_type"), PyStr(errorType.Name()))
      ensures r.items[1].key == PyStr("location") && r.items[1].value.PyList?
      ensures |r.items[1].value.elems| == |revLoc|
      ensures forall i | 0 <= i < |revLoc| :: r.items[1].value.elems[i] == Location()[i].ToObject()
    {
      var loc := Location();
      var d := SetItem([], PyStr("error_type"), PyStr(errorType.Name()));
      PyDict(SetItem(d, PyStr("location"), PyList(seq(|loc|, i requires 0 <= i < |loc| => loc[i].ToObject()))))
    }
  }

  /** `LineError::new`: an error with no location. */
  function New(errorType: ErrorType): (e: LineError)
    ensures e.errorType == errorType && e.Location() == []
  {
    LineError(errorType, [])
  }

  /** `LineError::new_loc`: an error located at exactly one segment. */
  function NewLoc(errorType: ErrorType, loc: LocItem): (e: LineError)
    ensures e.errorType == errorType && e.Location() == [loc]
  {
    LineError(errorType, [loc])
  }

  /** Pushing a segment puts it in front of the emitted path. */
  lemma {:induction false} LocationWithLoc(e: LineError, loc: LocItem)
    ensures e.WithLoc(loc).Location() == [loc] + e.Location()
  {
    var s := e.revLoc + [loc];
    assert s[..|s| - 1] == e.revLoc;
  }

  /** `new_loc(k, a)` passed out through a frame at `b` is emitted at `[b, a]`, outermost first. */
  lemma NestedLocation(errorType: ErrorType, a: LocItem, b: LocItem)
    ensures NewLoc(errorType, a).WithLoc(b).Location() == [b, a]
    ensures NewLoc(errorType, a).WithLoc(b).ToObject() ==
      PyDict([Item(PyStr("error_type"), PyStr(errorType.Name())), Item(PyStr("location"), PyList([b.ToObject(), a.ToObject()]))])
  {
    LocationWithLoc(NewLoc(errorType, a), b);
    var loc := [b, a];
    assert seq(|loc|, i requires 0 <= i < |loc| => loc[i].ToObject()) == [b.ToObject(), a.ToObject()];
  }

  /** Distinct kinds are emitted under distinct names. */
  lemma NamesDistinct(k1: ErrorType, k2: ErrorType)
    ensures k1.Name() == k2.Name() ==> k1 == k2
  {
  }

  /** A validation failure: collectible line errors, or a fatal error from the host. */
  datatype ValError = LineErrors(errors: seq<LineError>) | InternalError(err: PyErr)

  type ValResult<T> = Result<T, ValError>

  /** `From<PyErr>`. */
  function FromPyErr(err: PyErr): (v: ValError)
    ensures v.InternalError? && v.err == err
  {
    InternalError(err)
  }

  /** `From<DowncastError>`: a failed downcast is a fatal `TypeError` carrying its message. */
  function FromDowncastError(message: string): (v: ValError)
    ensures v.InternalError? && v.err == TypeError(message)
  {
    InternalError(TypeError(message))
  }

  /** `From<Vec<LineError>>`. */
  function FromLineErrors(errors: seq<LineError>): (v: ValError)
    ensures v.LineErrors? && v.errors == errors
  {
    LineErrors(errors)
  }

  /** `From<LineError>`: a singleton list. */
  function FromLineError(e: LineError): (v: ValError)
    ensures v.LineErrors? && v.errors == [e]
  {
    LineErrors([e])
  }

  /** `From<ErrorType>`: one error of that kind, with an empty location. */
  function FromErrorType(errorType: ErrorType): (v: ValError)
    ensures v.LineErrors? && |v.errors| == 1
    ensures v.errors[0].errorType == errorType && v.errors[0].Location() == []
  {
    LineErrors([New(errorType)])
  }

  /** Every error of `errors`, in the same order, with `loc` pushed as its outermost segment. */
  function WithLocAll(errors: seq<LineError>, loc: LocItem): (r: seq<LineError>)
    ensures |r| == |errors|
    ensures forall i | 0 <= i < |errors| :: r[i].errorType == errors[i].errorType
  {
    seq(|errors|, i requires 0 <= i < |errors| => errors[i].WithLoc(loc))
  }

  /** After `WithLocAll`, each emitted path is the old one with `loc` in front. */
  lemma WithLocAllLocations(errors: seq<LineError>, loc: LocItem)
    ensures forall i | 0 <= i < |errors| :: WithLocAll(errors, loc)[i].Location() == [loc] + errors[i].Location()
  {
    forall i | 0 <= i < |errors|
      ensures WithLocAll(errors, loc)[i].Location() == [loc] + errors[i].Location()
    {
      LocationWithLoc(errors[i], loc);
    }
  }

  /**
   * `ValError::line_errors_with_loc`: line errors come back with `loc` pushed
   * onto each, updated in place; an internal error is passed through untouched.
   */
  method LineErrorsWithLoc(e: ValError, loc: LocItem) returns (r: Result<seq<LineError>, PyErr>)
    ensures e.InternalError? ==> r == Err(e.err)
    ensures e.LineErrors? ==> r == Ok(WithLocAll(e.errors, loc))
  {
    match e
    case InternalError(err) =>
      r := Err(err);
    case LineErrors(_) =>
      var errors := e.errors;
      var i := 0;
      while i < |errors|
        invariant 0 <= i <= |errors| == |e.errors|
        invariant forall j | 0 <= j < i :: errors[j] == e.errors[j].WithLoc(loc)
        invariant forall j | i <= j < |errors| :: errors[j] == e.errors[j]
      {
        errors := errors[i := errors[i].WithLoc(loc)];
        i := i + 1;
      }
      assert errors == WithLocAll(e.errors, loc);
      r := Ok(errors);
  }

  /** The exception raised for collected line errors. */
  datatype ValidationError = ValidationError(errors: seq<LineError>)
  {
    /** `error_count`. */
    function ErrorCount(): (n: nat)
      ensures n == |errors|
    {
      |errors|
    }

    /** `errors()`: every stored error as emitted, in stored order. */
    function Errors(): (r: seq<PyObject>)
      ensures |r| == ErrorCount()
      ensures forall i | 0 <= i < |r| :: r[i] == errors[i].ToObject()
    {
      seq(|errors|, i requires 0 <= i < |errors| => errors[i].ToObject())
    }
  }

  /** What reaches the host when validation fails. */
  datatype HostError = Validation(exc: ValidationError) | Host(err: PyErr)

  /**
   * `ValError::to_py_err`: line errors are raised as one `ValidationError`
   * holding all of them, in order; an internal error is raised as it is.
   */
  function ToPyErr(v: ValError): (r: HostError)
    ensures r.Validation? <==> v.LineErrors?
    ensures v.InternalError? ==> r.err == v.err
    ensures v.LineErrors? ==> r.exc.ErrorCount() == |v.errors|
    ensures v.LineErrors? ==> forall i | 0 <= i < |v.errors| :: r.exc.Errors()[i] == v.errors[i].ToObject()
  {
    match v
    case LineErrors(errors) => Validation(ValidationError(errors))
    case InternalError(err) => Host(err)
  }
}
