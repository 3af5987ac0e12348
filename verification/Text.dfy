/** Byte-level and decimal text formats shared by the log, the snapshot and the stores.
    A byte string is a `string` whose characters stand for byte values. */
module Text {
  datatype Option<+T> = None | Some(value: T)

  /** How floating-point fields become text and back; the text is lossy. */
  datatype Floats = Floats(format: real -> string, parse: string -> Option<real>)

  const U32: nat := 0x1_0000_0000
  const U64: nat := 0x1_0000_0000_0000_0000
  const INT_MAX: nat := 0x7FFF_FFFF

  // ---------------------------------------------------------------- big-endian integers

  /** The low `width` bytes of n, most significant first. */
  function BigEndian(n: nat, width: nat): (s: string)
    ensures |s| == width
    decreases width
  {
    if width == 0 then "" else BigEndian(n / 256, width - 1) + [(n % 256) as char]
  }

  function FromBigEndian(s: string): nat {
    if s == "" then 0 else FromBigEndian(s[..|s| - 1]) * 256 + s[|s| - 1] as nat
  }

  predicate Fits(n: nat, width: nat)
    decreases width
  {
    if width == 0 then n == 0 else Fits(n / 256, width - 1)
  }

  lemma {:induction false} BigEndianRoundTrip(n: nat, width: nat)
    requires Fits(n, width)
    ensures FromBigEndian(BigEndian(n, width)) == n
    decreases width
  {
    if width > 0 {
      BigEndianRoundTrip(n / 256, width - 1);
      assert BigEndian(n, width)[..width - 1] == BigEndian(n / 256, width - 1);
    }
  }

  /** A fixed-width field of 4 or 8 bytes. The width is a function of the value only so that
      the verifier treats it as a name and does not unroll the recursion. */
  function Field32(n: nat): (s: string)
    ensures |s| == 4
  {
    BigEndian(n, Width32(n))
  }

  function Field64(n: nat): (s: string)
    ensures |s| == 8
  {
    BigEndian(n, Width64(n))
  }

  function Width32(n: nat): nat { 4 }

  function Width64(n: nat): nat { 8 }

  lemma Field32RoundTrip(n: nat)
    requires n < U32
    ensures FromBigEndian(Field32(n)) == n
  {
    Fits32(n);
    BigEndianRoundTrip(n, Width32(n));
  }

  lemma Field64RoundTrip(n: nat)
    requires n < U64
    ensures FromBigEndian(Field64(n)) == n
  {
    Fits64(n);
    BigEndianRoundTrip(n, Width64(n));
  }

  lemma Fits32(n: nat)
    ensures n < U32 <==> Fits(n, 4)
  {
    assert Fits(n, 4) <==> Fits(n / 256 / 256, 2);
    assert Fits(n / 256 / 256, 2) <==> n / 256 / 256 / 256 / 256 == 0;
  }

  lemma Fits64(n: nat)
    ensures n < U64 <==> Fits(n, 8)
  {
    var m := n / 256 / 256 / 256 / 256;
    assert Fits(n, 8) <==> Fits(n / 256 / 256, 6);
    assert Fits(n / 256 / 256, 6) <==> Fits(m, 4);
    Fits32(m);
  }

  // ---------------------------------------------------------------- decimal integers

  predicate IsDigit(c: char) {
    '0' <= c <= '9'
  }

  predicate AllDigits(s: string) {
    forall i :: 0 <= i < |s| ==> IsDigit(s[i])
  }

  /** std::to_string of an unsigned number. */
  function ToDecimal(n: nat): (s: string)
    ensures s != "" && AllDigits(s)
  {
    if n < 10 then ['0' + n as char] else ToDecimal(n / 10) + ['0' + (n % 10) as char]
  }

  function DecimalValue(s: string): nat
    requires AllDigits(s)
  {
    if s == "" then 0 else DecimalValue(s[..|s| - 1]) * 10 + (s[|s| - 1] - '0') as nat
  }

  lemma {:induction false} DecimalRoundTrip(n: nat)
    ensures DecimalValue(ToDecimal(n)) == n
  {
    if n >= 10 {
      DecimalRoundTrip(n / 10);
      assert ToDecimal(n)[..|ToDecimal(n)| - 1] == ToDecimal(n / 10);
    }
  }

  /** The longest prefix made of digits. */
  function DigitPrefix(s: string): (p: string)
    ensures AllDigits(p)
  {
    if s == "" || !IsDigit(s[0]) then "" else [s[0]] + DigitPrefix(s[1..])
  }

  lemma {:induction false} DigitPrefixOfDigits(s: string)
    requires AllDigits(s)
    ensures DigitPrefix(s) == s
  {
    if s != "" {
      DigitPrefixOfDigits(s[1..]);
    }
  }

  /** std::stoull: the leading digits; no digits or a value beyond 64 bits throws. */
  function Stoull(s: string): Option<nat> {
    var p := DigitPrefix(s);
    if p == "" || DecimalValue(p) >= U64 then None else Some(DecimalValue(p))
  }

  /** std::to_string of a signed number. */
  function IntToText(n: int): (s: string)
    ensures s != "" && forall i :: 0 <= i < |s| ==> IsDigit(s[i]) || s[i] == '-'
  {
    if n < 0 then "-" + ToDecimal(-n) else ToDecimal(n)
  }

  /** std::stoi: an optional minus sign and digits; a value beyond 32 bits throws. */
  function Stoi(s: string): Option<int> {
    var negative := s != "" && s[0] == '-';
    var p := DigitPrefix(if negative then s[1..] else s);
    if p == "" then None
    else
      var v: int := if negative then 0 - DecimalValue(p) else DecimalValue(p);
      if -(INT_MAX as int) - 1 <= v <= INT_MAX then Some(v) else None
  }

  lemma StoullRoundTrip(n: nat)
    ensures Stoull(ToDecimal(n)) == if n < U64 then Some(n) else None
  {
    DecimalRoundTrip(n);
    DigitPrefixOfDigits(ToDecimal(n));
  }

  predicate IsInt32(n: int) {
    -(INT_MAX as int) - 1 <= n <= INT_MAX
  }

  lemma StoiRoundTrip(n: int)
    ensures Stoi(IntToText(n)) == if IsInt32(n) then Some(n) else None
  {
    var m := if n < 0 then -n else n;
    DecimalRoundTrip(m);
    DigitPrefixOfDigits(ToDecimal(m));
    assert n < 0 ==> IntToText(n)[1..] == ToDecimal(m);
    assert n >= 0 ==> IsDigit(IntToText(n)[0]);
  }

  // ---------------------------------------------------------------- delimited text

  datatype Scanned = Scanned(pieces: seq<string>, cur: string)

  /** What a left-to-right scan has cut off so far, and the piece it is still reading.
      The parsers differ in whether an empty piece is kept. */
  function Scan(s: string, delim: char, keepEmpty: bool): Scanned {
    if s == "" then Scanned([], "")
    else
      var r, c := Scan(s[..|s| - 1], delim, keepEmpty), s[|s| - 1];
      if c != delim then Scanned(r.pieces, r.cur + [c])
      else Scanned(if keepEmpty || r.cur != "" then r.pieces + [r.cur] else r.pieces, "")
  }

  /** The pieces of the whole text; a trailing piece counts only when it is not empty. */
  function Pieces(s: string, delim: char, keepEmpty: bool): seq<string> {
    var r := Scan(s, delim, keepEmpty);
    if r.cur != "" then r.pieces + [r.cur] else r.pieces
  }

  /** Every field followed by the delimiter. */
  function Terminated(fields: seq<string>, delim: char): string {
    if fields == [] then ""
    else Terminated(fields[..|fields| - 1], delim) + fields[|fields| - 1] + [delim]
  }

  predicate Free(s: string, delim: char) {
    delim !in s
  }

  ghost predicate FieldsOk(fields: seq<string>, delim: char, keepEmpty: bool) {
    forall i :: 0 <= i < |fields| ==> Free(fields[i], delim) && (keepEmpty || fields[i] != "")
  }

  lemma ScanNext(s: string, c: char, delim: char, keepEmpty: bool)
    requires c != delim
    ensures var r := Scan(s, delim, keepEmpty); Scan(s + [c], delim, keepEmpty) == Scanned(r.pieces, r.cur + [c])
  {
    assert (s + [c])[..|s|] == s;
  }

  lemma {:induction false} ScanFree(s: string, tail: string, delim: char, keepEmpty: bool)
    requires Free(tail, delim)
    ensures Scan(s + tail, delim, keepEmpty) ==
      Scanned(Scan(s, delim, keepEmpty).pieces, Scan(s, delim, keepEmpty).cur + tail)
    decreases |tail|
  {
    if tail == "" {
      assert s + tail == s;
    } else {
      var init, c := tail[..|tail| - 1], tail[|tail| - 1];
      ScanFree(s, init, delim, keepEmpty);
      assert s + tail == (s + init) + [c] && tail == init + [c];
      ScanNext(s + init, c, delim, keepEmpty);
      var cur := Scan(s, delim, keepEmpty).cur;
      assert (cur + init) + [c] == cur + tail;
    }
  }

  lemma {:induction false} ScanTerminated(fields: seq<string>, delim: char, keepEmpty: bool)
    requires FieldsOk(fields, delim, keepEmpty)
    ensures Scan(Terminated(fields, delim), delim, keepEmpty) == Scanned(fields, "")
  {
    if fields != [] {
      var init, f := fields[..|fields| - 1], fields[|fields| - 1];
      ScanTerminated(init, delim, keepEmpty);
      ScanFree(Terminated(init, delim), f, delim, keepEmpty);
      var s := Terminated(fields, delim);
      assert s[..|s| - 1] == Terminated(init, delim) + f;
      assert "" + f == f;
      assert fields == init + [f];
    }
  }

  /** Cutting undoes terminating, with an optional unterminated field at the end. */
  lemma PiecesOfTerminated(fields: seq<string>, tail: string, delim: char, keepEmpty: bool)
    requires FieldsOk(fields, delim, keepEmpty) && Free(tail, delim)
    ensures Pieces(Terminated(fields, delim) + tail, delim, keepEmpty) ==
      if tail == "" then fields else fields + [tail]
  {
    ScanTerminated(fields, delim, keepEmpty);
    ScanFree(Terminated(fields, delim), tail, delim, keepEmpty);
    assert "" + tail == tail;
  }

  function NonEmpty(fields: seq<string>): (r: seq<string>)
    ensures |r| <= |fields|
  {
    if fields == [] then []
    else NonEmpty(fields[..|fields| - 1]) + if fields[|fields| - 1] == "" then [] else [fields[|fields| - 1]]
  }

  lemma {:induction false} ScanSkipsEmpty(fields: seq<string>, delim: char)
    requires forall i :: 0 <= i < |fields| ==> Free(fields[i], delim)
    ensures Scan(Terminated(fields, delim), delim, false) == Scanned(NonEmpty(fields), "")
  {
    if fields != [] {
      var init, f := fields[..|fields| - 1], fields[|fields| - 1];
      ScanSkipsEmpty(init, delim);
      ScanFree(Terminated(init, delim), f, delim, false);
      var s := Terminated(fields, delim);
      assert s[..|s| - 1] == Terminated(init, delim) + f;
      assert "" + f == f;
    }
  }

  /** Cutting without empty pieces finds exactly the fields that are not empty. */
  lemma PiecesSkipEmpty(fields: seq<string>, tail: string, delim: char)
    requires (forall i :: 0 <= i < |fields| ==> Free(fields[i], delim)) && Free(tail, delim)
    ensures Pieces(Terminated(fields, delim) + tail, delim, false) == NonEmpty(fields) + if tail == "" then [] else [tail]
  {
    ScanSkipsEmpty(fields, delim);
    ScanFree(Terminated(fields, delim), tail, delim, false);
    assert "" + tail == tail;
  }

  lemma {:induction false} TerminatedFree(fields: seq<string>, delim: char, other: char)
    requires delim != other && forall i :: 0 <= i < |fields| ==> Free(fields[i], other)
    ensures Free(Terminated(fields, delim), other)
    ensures fields != [] ==> Terminated(fields, delim) != ""
  {
    if fields != [] {
      TerminatedFree(fields[..|fields| - 1], delim, other);
    }
  }

  lemma NumbersFree(n: nat, m: int, delim: char)
    requires !IsDigit(delim) && delim != '-'
    ensures Free(ToDecimal(n), delim) && Free(IntToText(m), delim)
  {}

  lemma TerminatedSnoc(init: seq<string>, f: string, delim: char)
    ensures Terminated(init + [f], delim) == Terminated(init, delim) + f + [delim]
  {
    assert (init + [f])[..|init|] == init;
  }

  lemma {:induction false} ScanClean(s: string, delim: char, keepEmpty: bool)
    ensures var r := Scan(s, delim, keepEmpty);
      && Free(r.cur, delim) && (forall c <- r.cur :: c in s)
      && forall p <- r.pieces :: (keepEmpty || p != "") && Free(p, delim) && forall c <- p :: c in s
  {
    if s != "" {
      ScanClean(s[..|s| - 1], delim, keepEmpty);
    }
  }

  /** No piece holds the delimiter or any character the text does not have. */
  lemma PiecesClean(s: string, delim: char, keepEmpty: bool)
    ensures forall p <- Pieces(s, delim, keepEmpty) ::
      (keepEmpty || p != "") && Free(p, delim) && forall c <- p :: c in s
  {
    ScanClean(s, delim, keepEmpty);
  }
}
