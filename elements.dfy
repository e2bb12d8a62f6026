/**
 * Element identifiers, their base-36 text form and the directory fan-out
 * of the file-backed element store (store.go, ElementID and Store.eldir).
 *
 * An ElementID is an unsigned 64-bit integer. Its text form is what
 * strconv.FormatUint(id, 36) produces (lower-case digits, no leading zero),
 * and FromString parses text back the way strconv.ParseUint(s, 36, 64) does:
 * digits are read left to right, letters of either case are accepted, the
 * first character that is not a digit is a syntax error and the first digit
 * that makes the value exceed 2^64 - 1 is a range error.
 */
module Elements {

  datatype Option<T> = None | Some(value: T)

  /** The errors the store reports or passes through. */
  datatype Error =
    | AlreadyExists   // ErrAlreadyExists: Put of an identifier that is present
    | DoesNotExist    // ErrDoesNotExist: Get of an identifier that is absent
    | Syntax          // strconv.ErrSyntax from FromString
    | Range           // strconv.ErrRange from FromString
    | Io(code: nat)   // a filesystem or (de)serialization error, passed on verbatim

  datatype Result<T> = Ok(value: T) | Err(error: Error)

  const Base: nat := 36
  const U64Limit: nat := 0x1_0000_0000_0000_0000
  const MaxU64: nat := U64Limit - 1
  /** strconv's cutoff: the smallest value whose product with the base overflows. */
  const Cutoff: nat := MaxU64 / Base + 1

  type ElementID = n: nat | n < U64Limit

  /**
   * An element: its identifier and its contents, which the store never
   * interprets (they are what the element's Load and Store read and write).
   */
  datatype Element = Element(id: ElementID, data: seq<bv8>)

  function Min(a: int, b: int): int { if a < b then a else b }

  /** The value of one base-36 digit, in either case, as strconv reads it. */
  function DigitValue(c: char): (r: Option<nat>)
    ensures r.Some? ==> r.value < Base
    ensures r.Some? <==> ('0' <= c <= '9' || 'a' <= c <= 'z' || 'A' <= c <= 'Z')
  {
    if '0' <= c <= '9' then Some(c as int - '0' as int)
    else if 'a' <= c <= 'z' then Some(c as int - 'a' as int + 10)
    else if 'A' <= c <= 'Z' then Some(c as int - 'A' as int + 10)
    else None
  }

  /** The lower-case character strconv.FormatUint writes for a digit. */
  function DigitChar(d: nat): (c: char)
    requires d < Base
    ensures DigitValue(c) == Some(d)
    ensures '0' <= c <= '9' || 'a' <= c <= 'z'
  {
    if d < 10 then ('0' as int + d) as char else ('a' as int + d - 10) as char
  }

  predicate IsDigits(s: string)
  {
    forall i :: 0 <= i < |s| ==> DigitValue(s[i]).Some?
  }

  /** The number a string of base-36 digits denotes, most significant first. */
  function Value(s: string): nat
    requires IsDigits(s)
  {
    if s == [] then 0 else Value(s[..|s| - 1]) * Base + DigitValue(s[|s| - 1]).value
  }

  /** strconv.FormatUint(n, 36). */
  function FormatBase36(n: nat): (s: string)
    ensures |s| >= 1 && IsDigits(s)
    ensures forall i :: 0 <= i < |s| ==> '0' <= s[i] <= '9' || 'a' <= s[i] <= 'z'
    ensures s[0] == '0' <==> n == 0
    ensures |s| == 1 <==> n < Base
    decreases n
  {
    if n < Base then [DigitChar(n)] else FormatBase36(n / Base) + [DigitChar(n % Base)]
  }

  /** ElementID.String: base-36 digits, lower case, that denote the identifier. */
  function String(id: ElementID): (s: string)
    ensures |s| >= 1 && IsDigits(s) && Value(s) == id
    ensures forall i :: 0 <= i < |s| ==> '0' <= s[i] <= '9' || 'a' <= s[i] <= 'z'
  {
    FormatValue(id);
    FormatBase36(id)
  }

  /**
   * The digit loop of strconv.ParseUint(s, 36, 64), with `acc` the value of
   * the digits already read. Both overflow guards of the source are kept:
   * `acc >= Cutoff` (the multiplication overflows) and the sum exceeding the
   * largest 64-bit value (the addition overflows).
   */
  function ParseDigits(s: string, acc: nat): (r: Result<nat>)
    requires acc <= MaxU64
    ensures r.Ok? ==> r.value <= MaxU64
    ensures r.Err? ==> r.error == Syntax || r.error == Range
    decreases |s|
  {
    if s == [] then Ok(acc)
    else
      match DigitValue(s[0])
      case None => Err(Syntax)
      case Some(d) =>
        if acc >= Cutoff || acc * Base + d > MaxU64 then Err(Range)
        else ParseDigits(s[1..], acc * Base + d)
  }

  /** strconv.ParseUint(s, 36, 64): the empty string is a syntax error. */
  function ParseUint36(s: string): (r: Result<nat>)
    ensures r.Ok? ==> r.value <= MaxU64
    ensures r.Err? ==> r.error == Syntax || r.error == Range
    ensures s == [] ==> r == Err(Syntax)
  {
    if s == [] then Err(Syntax) else ParseDigits(s, 0)
  }

  /**
   * ElementID.FromString: the receiver `id` is overwritten with the parsed
   * value on success and left as it was on error.
   */
  function FromString(id: ElementID, s: string): (r: (ElementID, Option<Error>))
    ensures r.1.Some? ==> r.0 == id && (r.1.value == Syntax || r.1.value == Range)
  {
    match ParseUint36(s)
    case Err(e) => (id, Some(e))
    case Ok(n) => (n, None)
  }

  /**
   * Store.eldir without the root: the first min(2, len) characters of the
   * identifier's text form. The source panics on an empty text form, which
   * FormatBase36 never produces.
   */
  function ElDir(id: ElementID): (d: string)
    ensures 1 <= |d| <= 2 && |d| == Min(2, |String(id)|)
    ensures d <= String(id)
    ensures |d| == 1 <==> id < Base
  {
    var s := String(id);
    if |s| == 0 then assert false; ""
    else if |s| < 2 then s
    else s[..2]
  }

  /** The directory and file name an element is written to, below the store root. */
  function ElementFile(id: ElementID): (f: (string, string))
    ensures f.1 == String(id) && f.0 <= f.1 && |f.0| == Min(2, |f.1|)
  {
    (ElDir(id), String(id))
  }

  // ---------------------------------------------------------------------
  // The text form round-trips, and parsing means the number the digits denote.

  lemma {:induction false} FormatValue(n: nat)
    ensures Value(FormatBase36(n)) == n
    decreases n
  {
    if n >= Base {
      FormatValue(n / Base);
      var s := FormatBase36(n);
      assert s[..|s| - 1] == FormatBase36(n / Base);
    }
  }

  /** Appending digits never makes the value smaller. */
  lemma {:induction false} ValueMonotone(p: string, t: string)
    requires IsDigits(p + t)
    ensures IsDigits(p) && Value(p) <= Value(p + t)
    decreases |t|
  {
    assert forall i :: 0 <= i < |p| ==> p[i] == (p + t)[i];
    if t != [] {
      var t' := t[..|t| - 1];
      assert (p + t)[..|p + t| - 1] == p + t';
      assert forall i :: 0 <= i < |p + t'| ==> (p + t')[i] == (p + t)[i];
      ValueMonotone(p, t');
      assert Value(p + t) == Value(p + t') * Base + DigitValue((p + t)[|p + t| - 1]).value;
    } else {
      assert p + t == p;
    }
  }

  /**
   * Reading the digits t after a prefix p yields the value of p + t when it
   * fits in 64 bits, and a range error when it does not.
   */
  lemma {:induction false} ParseDigitsValue(p: string, t: string)
    requires IsDigits(p) && IsDigits(p + t)
    requires Value(p) <= MaxU64
    ensures ParseDigits(t, Value(p)) == if Value(p + t) <= MaxU64 then Ok(Value(p + t)) else Err(Range)
    decreases |t|
  {
    if t == [] {
      assert p + t == p;
    } else {
      assert (p + t)[|p|] == t[0];
      var d := DigitValue(t[0]).value;
      var p' := p + [t[0]];
      assert p'[..|p'| - 1] == p;
      assert IsDigits(p');
      assert Value(p') == Value(p) * Base + d;
      assert p' + t[1..] == p + t;
      if Value(p) >= Cutoff || Value(p) * Base + d > MaxU64 {
        ValueMonotone(p', t[1..]);
      } else {
        ParseDigitsValue(p', t[1..]);
      }
    }
  }

  /** A character that is not a base-36 digit makes the parse fail. */
  lemma {:induction false} ParseDigitsRejects(s: string, acc: nat)
    requires acc <= MaxU64
    requires !IsDigits(s)
    ensures ParseDigits(s, acc).Err?
    decreases |s|
  {
    var i :| 0 <= i < |s| && DigitValue(s[i]).None?;
    if DigitValue(s[0]).Some? {
      var d := DigitValue(s[0]).value;
      if !(acc >= Cutoff || acc * Base + d > MaxU64) {
        assert s[1..][i - 1] == s[i];
        ParseDigitsRejects(s[1..], acc * Base + d);
      }
    }
  }

  /**
   * ParseUint36 succeeds exactly on non-empty digit strings whose value fits
   * in 64 bits, and then yields that value; the empty string is a syntax
   * error and an over-long digit string a range error.
   */
  lemma ParseUint36Meaning(s: string)
    ensures ParseUint36(s).Ok? <==> s != [] && IsDigits(s) && Value(s) <= MaxU64
    ensures ParseUint36(s).Ok? ==> IsDigits(s) && ParseUint36(s).value == Value(s)
    ensures s == [] ==> ParseUint36(s) == Err(Syntax)
    ensures s != [] && IsDigits(s) && Value(s) > MaxU64 ==> ParseUint36(s) == Err(Range)
  {
    if s != [] {
      if IsDigits(s) {
        assert [] + s == s;
        ParseDigitsValue([], s);
      } else {
        ParseDigitsRejects(s, 0);
      }
    }
  }

  /** FromString(id.String()) succeeds and yields id, whatever the receiver held. */
  lemma StringRoundTrip(id: ElementID, receiver: ElementID)
    ensures ParseUint36(String(id)) == Ok(id as nat)
    ensures FromString(receiver, String(id)) == (id, None)
  {
    FormatValue(id);
    assert [] + String(id) == String(id);
    ParseDigitsValue([], String(id));
  }

  /**
   * FromString fails, leaving the receiver unchanged, on the empty string,
   * on a character that is not a base-36 digit and on a value above 2^64 - 1.
   */
  lemma FromStringRejects(receiver: ElementID, s: string)
    requires s == [] || !IsDigits(s) || Value(s) > MaxU64
    ensures FromString(receiver, s).1.Some?
    ensures FromString(receiver, s).0 == receiver
  {
    ParseUint36Meaning(s);
  }

  /** Distinct identifiers have distinct text forms, hence distinct files. */
  lemma DistinctFiles(a: ElementID, b: ElementID)
    requires a != b
    ensures String(a) != String(b)
    ensures ElementFile(a) != ElementFile(b)
  {
    StringRoundTrip(a, a);
    StringRoundTrip(b, b);
  }
}
