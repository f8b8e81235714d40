/** The few pieces of Python's runtime that the bot's validation code relies
    on: the exceptions it can raise, the `in` operator, subscription with a
    string key, dictionary membership and the `str()` conversion that an
    f-string applies to a value. */
module Py {
  import opened Json

  /** A value or Python's `None`, as returned by `os.getenv`. */
  datatype Option<+T> = None | Some(value: T)

  /** The exceptions the validated code can raise. */
  datatype Error =
    | BotException(message: string)   // the bot's own exception class
    | KeyError(key: string)           // `d[key]` on a dict without `key`
    | TypeError                       // an operator applied to a value of the wrong type

  /** The outcome of a Python call: a returned value or a raised exception. */
  datatype Result<+T> = Ok(value: T) | Err(error: Error) {

    predicate IsFailure() {
      Err?
    }

    function PropagateFailure<U>(): Result<U>
      requires Err?
    {
      Err(error)
    }

    function Extract(): T
      requires Ok?
    {
      value
    }
  }

  /** `sub` occurs in `s` starting at index `i`. */
  ghost predicate OccursAt(sub: string, s: string, i: int) {
    0 <= i && i + |sub| <= |s| && s[i..i + |sub|] == sub
  }

  /** Python's `sub in s` on two strings. */
  function IsSubstring(sub: string, s: string): bool
    decreases |s|
  {
    if |s| < |sub| then false
    else if s[..|sub|] == sub then true
    else IsSubstring(sub, s[1..])
  }

  /** The substring test finds `sub` exactly when it occurs at some index. */
  lemma {:induction false} IsSubstringSpec(sub: string, s: string)
    ensures IsSubstring(sub, s) <==> exists i :: OccursAt(sub, s, i)
    decreases |s|
  {
    if |s| < |sub| {
      forall i ensures !OccursAt(sub, s, i) {
      }
    } else if s[..|sub|] == sub {
      assert OccursAt(sub, s, 0);
    } else {
      var t := s[1..];
      IsSubstringSpec(sub, t);
      if exists i :: OccursAt(sub, t, i) {
        var i :| OccursAt(sub, t, i);
        assert s[i + 1..i + 1 + |sub|] == t[i..i + |sub|];
        assert OccursAt(sub, s, i + 1);
      }
      if exists i :: OccursAt(sub, s, i) {
        var i :| OccursAt(sub, s, i);
        assert i != 0;
        assert t[i - 1..i - 1 + |sub|] == s[i..i + |sub|];
        assert OccursAt(sub, t, i - 1);
      }
    }
  }

  /** Python's `key in container` with a string on the left: key membership
      for a dict, element membership for a list, substring search for a
      string; `None`, numbers and booleans are not iterable. */
  function In(key: string, container: JValue): (r: Result<bool>)
    ensures r.Ok? <==> container.JObj? || container.JList? || container.JStr?
    ensures container.JObj? ==> r == Ok(key in container.fields)
    ensures container.JList? ==> r == Ok(JStr(key) in container.items)
    ensures container.JStr? ==> r == Ok(exists i :: OccursAt(key, container.s, i))
    ensures !(container.JObj? || container.JList? || container.JStr?) ==> r == Err(TypeError)
  {
    match container
    case JObj(fields) => Ok(key in fields)
    case JList(items) => Ok(JStr(key) in items)
    case JStr(s) =>
      IsSubstringSpec(key, s);
      Ok(IsSubstring(key, s))
    case _ => Err(TypeError)
  }

  /** Python's `container[key]` with a string key: only a dict accepts it. */
  function Subscript(container: JValue, key: string): (r: Result<JValue>)
    ensures r.Ok? <==> container.JObj? && key in container.fields
    ensures r.Ok? ==> r.value == container.fields[key]
    ensures container.JObj? && key !in container.fields ==> r == Err(KeyError(key))
    ensures !container.JObj? ==> r == Err(TypeError)
  {
    match container
    case JObj(fields) => if key in fields then Ok(fields[key]) else Err(KeyError(key))
    case _ => Err(TypeError)
  }

  /** Python's `value in table` for a dict with string keys: lists and dicts
      are unhashable, and no other non-string value equals a string key. */
  function HashIn(value: JValue, table: map<string, string>): (r: Result<bool>)
    ensures r == Err(TypeError) <==> value.JList? || value.JObj?
    ensures r == Ok(true) <==> value.JStr? && value.s in table
    ensures !value.JList? && !value.JObj? ==> r == Ok(value.JStr? && value.s in table)
  {
    match value
    case JList(_) => Err(TypeError)
    case JObj(_) => Err(TypeError)
    case JStr(s) => Ok(s in table)
    case _ => Ok(false)
  }

  /** The character of a decimal digit. */
  function DigitChar(d: nat): (c: char)
    requires d < 10
    ensures '0' <= c <= '9'
  {
    (d + '0' as int) as char
  }

  /** The number a string of decimal digits stands for, read left to right. */
  function DecimalValue(s: string): nat
    requires forall k :: 0 <= k < |s| ==> '0' <= s[k] <= '9'
  {
    if s == [] then 0
    else DecimalValue(s[..|s| - 1]) * 10 + (s[|s| - 1] as int - '0' as int)
  }

  /** The decimal digits of a natural number, most significant first. */
  function Digits(n: nat): (r: string)
    ensures |r| >= 1
    ensures forall k :: 0 <= k < |r| ==> '0' <= r[k] <= '9'
    ensures n < 10 <==> |r| == 1
    decreases n
  {
    if n < 10 then [DigitChar(n)] else Digits(n / 10) + [DigitChar(n % 10)]
  }

  /** The digits of `n` read back as a number give `n`, and there is no
      leading zero. */
  lemma {:induction false} DigitsValue(n: nat)
    ensures forall k :: 0 <= k < |Digits(n)| ==> '0' <= Digits(n)[k] <= '9'
    ensures DecimalValue(Digits(n)) == n
    ensures n >= 10 ==> Digits(n)[0] != '0'
    decreases n
  {
    if n >= 10 {
      DigitsValue(n / 10);
      var s := Digits(n);
      assert s[..|s| - 1] == Digits(n / 10);
    }
  }

  /** `str(value)`, which is what an f-string inserts for `{value}`. Strings
      are inserted as they are; lists and dicts get a placeholder instead of
      Python's `repr`. */
  function Str(value: JValue): (r: string)
    ensures value.JStr? ==> r == value.s
    ensures value.JNull? ==> r == "None"
    ensures value.JBool? ==> r == (if value.b then "True" else "False")
    // An integer is its decimal digits without leading zeros, with a leading
    // minus sign exactly when negative; the digits read back as its magnitude.
    ensures value.JInt? ==>
      && |r| >= 1
      && (r[0] == '-' <==> value.i < 0)
      && (value.i < 0 ==> r == "-" + Digits(-value.i))
      && (value.i >= 0 ==> r == Digits(value.i))
      && (value.i < 0 ==> DecimalValue(r[1..]) == -value.i)
      && (value.i >= 0 ==> DecimalValue(r) == value.i)
      && (value.i >= 10 ==> r[0] != '0')
      && (value.i <= -10 ==> r[1] != '0')
  {
    match value
    case JStr(s) => s
    case JInt(i) =>
      DigitsValue(if i < 0 then -i else i);
      if i < 0 then "-" + Digits(-i) else Digits(i)
    case JNull => "None"
    case JBool(b) => if b then "True" else "False"
    case JList(_) => "[...]"
    case JObj(_) => "{...}"
  }
}
