/** Values shared by the services and components of the deblurring app:
    the browser `File` record, optional and failing results, bytes,
    number formatting as JavaScript's template literals print integers,
    `Array.prototype.join`, and plain substring search. */
module Common {

  datatype Option<T> = None | Some(value: T)

  /** A value, or the message of the `Error` that was thrown instead. */
  datatype Result<T> = Ok(value: T) | Err(message: string)

  /** One element of a `Uint8ClampedArray`. */
  type Byte = x: int | 0 <= x <= 255

  /** A browser `File`: its name, its MIME type (`file.type`) and its size in bytes. */
  datatype File = File(name: string, mimeType: string, size: nat)

  /** What a component hands to `processImage`: the file and the intensity. */
  datatype ProcessRequest = ProcessRequest(file: File, intensity: int)

  // ---------------------------------------------------------------------------
  // Integers as JavaScript prints them (`${n}`)

  function DigitChar(d: int): (c: char)
    requires 0 <= d < 10
    ensures '0' <= c <= '9'
  {
    ('0' as int + d) as char
  }

  function DigitValue(c: char): int {
    c as int - '0' as int
  }

  /** Decimal digits of `n`, most significant first, without leading zeros. */
  function NatToString(n: nat): (s: string)
    ensures |s| >= 1
    ensures forall i :: 0 <= i < |s| ==> '0' <= s[i] <= '9'
    ensures s[0] == '0' ==> n == 0 && |s| == 1
    decreases n
  {
    if n < 10 then [DigitChar(n)] else NatToString(n / 10) + [DigitChar(n % 10)]
  }

  /** The number a string of decimal digits denotes. */
  function DecimalValue(s: string): int {
    if s == [] then 0 else DecimalValue(s[..|s| - 1]) * 10 + DigitValue(s[|s| - 1])
  }

  /** Printing an integer and reading it back gives the same integer. */
  lemma {:induction false} DecimalRoundTrip(n: nat)
    ensures DecimalValue(NatToString(n)) == n
    decreases n
  {
    if n >= 10 {
      var s := NatToString(n);
      assert s[..|s| - 1] == NatToString(n / 10);
      DecimalRoundTrip(n / 10);
    }
  }

  function IntToString(n: int): (s: string)
    ensures |s| >= 1
    ensures n >= 0 ==> s == NatToString(n)
    ensures n < 0 ==> s[0] == '-' && s[1..] == NatToString(-n)
  {
    if n < 0 then "-" + NatToString(-n) else NatToString(n)
  }

  // ---------------------------------------------------------------------------
  // `Array.prototype.join`

  function TotalLength(parts: seq<string>): nat {
    if parts == [] then 0 else |parts[0]| + TotalLength(parts[1..])
  }

  /** The parts in order with `sep` between neighbours. */
  function Join(parts: seq<string>, sep: string): (r: string)
    ensures parts == [] ==> r == ""
    ensures parts != [] ==> |r| == TotalLength(parts) + (|parts| - 1) * |sep|
    ensures parts != [] ==> r[..|parts[0]|] == parts[0]
    ensures |parts| == 1 ==> r == parts[0]
  {
    if |parts| == 0 then ""
    else if |parts| == 1 then parts[0]
    else parts[0] + sep + Join(parts[1..], sep)
  }

  /** Appending a part appends one separator and that part. With the empty
      and the one-part cases of `Join`'s contract this fixes `Join` on every
      list, built up from the left. */
  lemma {:induction false} JoinAppend(parts: seq<string>, sep: string, p: string)
    requires parts != []
    ensures Join(parts + [p], sep) == Join(parts, sep) + sep + p
    decreases |parts|
  {
    if |parts| == 1 {
      assert (parts + [p])[1..] == [p];
    } else {
      assert (parts + [p])[1..] == parts[1..] + [p];
      JoinAppend(parts[1..], sep, p);
    }
  }

  /** `Join` of two and of three parts, written out. */
  lemma JoinOfFew(parts: seq<string>, sep: string)
    ensures |parts| == 2 ==> Join(parts, sep) == parts[0] + sep + parts[1]
    ensures |parts| == 3 ==> Join(parts, sep) == parts[0] + sep + parts[1] + sep + parts[2]
  {
    if |parts| == 2 {
      assert parts == [parts[0]] + [parts[1]];
      JoinAppend([parts[0]], sep, parts[1]);
    } else if |parts| == 3 {
      assert parts == [parts[0], parts[1]] + [parts[2]];
      assert [parts[0], parts[1]] == [parts[0]] + [parts[1]];
      JoinAppend([parts[0]], sep, parts[1]);
      JoinAppend([parts[0], parts[1]], sep, parts[2]);
    }
  }

  // ---------------------------------------------------------------------------
  // Substring search

  /** `p` occurs in `s` starting at index `i`. */
  ghost predicate OccursAt(p: string, s: string, i: int) {
    0 <= i && i + |p| <= |s| && s[i..i + |p|] == p
  }

  /** The first index at or after `from` where `p` occurs in `s`. */
  function IndexOfFrom(p: string, s: string, from: nat): (r: Option<nat>)
    ensures r.Some? ==> from <= r.value && OccursAt(p, s, r.value)
    ensures r.Some? ==> forall j :: from <= j < r.value ==> !OccursAt(p, s, j)
    ensures r.None? ==> forall j :: from <= j ==> !OccursAt(p, s, j)
    decreases |s| - from
  {
    if from + |p| > |s| then None
    else if s[from..from + |p|] == p then Some(from)
    else IndexOfFrom(p, s, from + 1)
  }

  /** `String.prototype.indexOf`, as an option. */
  function IndexOf(p: string, s: string): (r: Option<nat>)
    ensures r.Some? ==> OccursAt(p, s, r.value) && forall j :: 0 <= j < r.value ==> !OccursAt(p, s, j)
    ensures r.None? <==> forall j :: !OccursAt(p, s, j)
  {
    IndexOfFrom(p, s, 0)
  }

  function Contains(p: string, s: string): (b: bool)
    ensures b <==> exists i :: OccursAt(p, s, i)
  {
    IndexOf(p, s).Some?
  }

  /** An occurrence in a suffix of `s` is an occurrence in `s`, shifted. */
  lemma OccursInSuffix(p: string, s: string, d: nat, j: nat)
    requires d <= |s|
    ensures OccursAt(p, s[d..], j) <==> OccursAt(p, s, d + j)
  {
    if j + |p| <= |s| - d {
      assert s[d..][j..j + |p|] == s[d + j..d + j + |p|];
    }
  }
}
