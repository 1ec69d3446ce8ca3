/**
 Fixed-size records as the C compiler lays them out on x86-64: little-endian integers, zero
 padded char arrays and padding.
 */
module Bytes {
  type byte = x: int | 0 <= x < 256

  /** The characters of a C string, without the terminator. */
  type cchar = c: char | 0 < c as int < 256 witness 'a'
  type CString = seq<cchar>

  function Pow256(n: nat): (r: nat)
    ensures r >= 1
  {
    if n == 0 then 1 else 256 * Pow256(n - 1)
  }

  function Zeros(n: nat): (r: seq<byte>)
    ensures |r| == n && forall i :: 0 <= i < n ==> r[i] == 0
  {
    seq(n, _ => 0)
  }

  // ---- Integers ----

  function EncodeNat(n: nat, width: nat): (b: seq<byte>)
    ensures |b| == width
  {
    if width == 0 then [] else [n % 256] + EncodeNat(n / 256, width - 1)
  }

  function DecodeNat(b: seq<byte>): (n: nat)
    ensures n < Pow256(|b|)
  {
    if b == [] then 0 else b[0] + 256 * DecodeNat(b[1..])
  }

  lemma {:induction false} NatRoundTrip(n: nat, width: nat)
    requires n < Pow256(width)
    ensures DecodeNat(EncodeNat(n, width)) == n
  {
    if width > 0 {
      assert EncodeNat(n, width)[1..] == EncodeNat(n / 256, width - 1);
      NatRoundTrip(n / 256, width - 1);
    }
  }

  /** Two's complement. */
  function EncodeInt(n: int, width: nat): (b: seq<byte>)
    ensures |b| == width
  {
    EncodeNat(n % Pow256(width), width)
  }

  function DecodeInt(b: seq<byte>): int {
    var n := DecodeNat(b);
    if 2 * n < Pow256(|b|) then n else n - Pow256(|b|)
  }

  predicate IntFits(n: int, width: nat) {
    0 <= 2 * n + Pow256(width) < 2 * Pow256(width)
  }

  lemma IntRoundTrip(n: int, width: nat)
    requires IntFits(n, width)
    ensures DecodeInt(EncodeInt(n, width)) == n
  {
    var m := Pow256(width);
    if n >= 0 {
      ModSmall(n, m);
    } else {
      ModShift(n, m);
      ModSmall(n + m, m);
    }
    NatRoundTrip(n % m, width);
  }

  lemma ModSmall(n: int, m: nat)
    requires 0 <= n < m
    ensures n % m == n
  {
  }

  lemma ModShift(n: int, m: nat)
    requires n < 0 <= n + m && m > 0
    ensures n % m == (n + m) % m
  {
    assert n == -1 * m + (n + m);
  }

  // ---- Char arrays ----

  function EncodeText(s: CString, width: nat): (b: seq<byte>)
    requires |s| <= width
    ensures |b| == width
  {
    seq(|s|, i requires 0 <= i < |s| => s[i] as int) + Zeros(width - |s|)
  }

  function DecodeText(b: seq<byte>): (s: CString)
    ensures |s| <= |b|
  {
    if b == [] || b[0] == 0 then [] else [b[0] as char] + DecodeText(b[1..])
  }

  lemma {:induction false} TextRoundTrip(s: CString, width: nat)
    requires |s| <= width
    ensures DecodeText(EncodeText(s, width)) == s
  {
    var b := EncodeText(s, width);
    if s != [] {
      assert b[1..] == EncodeText(s[1..], width - 1);
      TextRoundTrip(s[1..], width - 1);
    }
  }

  // ---- Records ----

  datatype Field =
    | Unsigned(width: nat)
    | Signed(width: nat)
    | Words(count: nat)        // an array of 64-bit words
    | Text(width: nat)         // a char array
    | Padding(width: nat)

  datatype Value = Int(n: int) | WordList(words: seq<nat>) | Str(s: CString) | Nothing

  function Width(f: Field): nat {
    match f
    case Words(count) => 8 * count
    case _ => f.width
  }

  function Size(fields: seq<Field>): nat {
    if fields == [] then 0 else Width(fields[0]) + Size(fields[1..])
  }

  predicate Fits(v: Value, f: Field) {
    match f
    case Unsigned(width) => v.Int? && 0 <= v.n < Pow256(width)
    case Signed(width) => v.Int? && IntFits(v.n, width)
    case Words(count) => v.WordList? && |v.words| == count && forall i :: 0 <= i < count ==> v.words[i] < Pow256(8)
    case Text(width) => v.Str? && |v.s| < width
    case Padding(_) => v.Nothing?
  }

  function EncodeWords(words: seq<nat>): (b: seq<byte>)
    ensures |b| == 8 * |words|
  {
    if words == [] then [] else EncodeNat(words[0], 8) + EncodeWords(words[1..])
  }

  function DecodeWords(b: seq<byte>, count: nat): (words: seq<nat>)
    requires |b| == 8 * count
    ensures |words| == count
  {
    if count == 0 then [] else [DecodeNat(b[..8])] + DecodeWords(b[8..], count - 1)
  }

  lemma {:induction false} WordsRoundTrip(words: seq<nat>)
    requires forall i :: 0 <= i < |words| ==> words[i] < Pow256(8)
    ensures DecodeWords(EncodeWords(words), |words|) == words
  {
    if words != [] {
      var b := EncodeWords(words);
      assert b[..8] == EncodeNat(words[0], 8) && b[8..] == EncodeWords(words[1..]);
      NatRoundTrip(words[0], 8);
      WordsRoundTrip(words[1..]);
    }
  }

  function EncodeField(v: Value, f: Field): (b: seq<byte>)
    requires Fits(v, f)
    ensures |b| == Width(f)
  {
    match f
    case Unsigned(width) => EncodeNat(v.n, width)
    case Signed(width) => EncodeInt(v.n, width)
    case Words(_) => EncodeWords(v.words)
    case Text(width) => EncodeText(v.s, width)
    case Padding(width) => Zeros(width)
  }

  function DecodeField(b: seq<byte>, f: Field): (v: Value)
    requires |b| == Width(f)
    ensures SameShape(v, f)
  {
    match f
    case Unsigned(_) => Int(DecodeNat(b))
    case Signed(_) => Int(DecodeInt(b))
    case Words(count) => WordList(DecodeWords(b, count))
    case Text(_) => Str(DecodeText(b))
    case Padding(_) => Nothing
  }

  predicate SameShape(v: Value, f: Field) {
    match f
    case Unsigned(_) => v.Int? && v.n >= 0
    case Signed(_) => v.Int?
    case Words(count) => v.WordList? && |v.words| == count
    case Text(width) => v.Str? && |v.s| <= width
    case Padding(_) => v.Nothing?
  }

  lemma FieldRoundTrip(v: Value, f: Field)
    requires Fits(v, f)
    ensures DecodeField(EncodeField(v, f), f) == v
  {
    match f
    case Unsigned(width) => NatRoundTrip(v.n, width);
    case Signed(width) => IntRoundTrip(v.n, width);
    case Words(_) => WordsRoundTrip(v.words);
    case Text(width) => TextRoundTrip(v.s, width);
    case Padding(_) =>
  }

  ghost predicate AllFit(vs: seq<Value>, fields: seq<Field>) {
    |vs| == |fields| && forall i :: 0 <= i < |vs| ==> Fits(vs[i], fields[i])
  }

  function Encode(vs: seq<Value>, fields: seq<Field>): (b: seq<byte>)
    requires |vs| == |fields| && forall i :: 0 <= i < |vs| ==> Fits(vs[i], fields[i])
    ensures |b| == Size(fields)
  {
    if vs == [] then [] else EncodeField(vs[0], fields[0]) + Encode(vs[1..], fields[1..])
  }

  function Decode(b: seq<byte>, fields: seq<Field>): (vs: seq<Value>)
    requires |b| == Size(fields)
    ensures |vs| == |fields| && forall i :: 0 <= i < |vs| ==> SameShape(vs[i], fields[i])
  {
    if fields == [] then []
    else
      var w := Width(fields[0]);
      [DecodeField(b[..w], fields[0])] + Decode(b[w..], fields[1..])
  }

  /** Every record comes back from its bytes. */
  lemma {:induction false} RecordRoundTrip(vs: seq<Value>, fields: seq<Field>)
    requires AllFit(vs, fields)
    ensures Decode(Encode(vs, fields), fields) == vs
  {
    if vs != [] {
      var b := Encode(vs, fields);
      var w := Width(fields[0]);
      assert b[..w] == EncodeField(vs[0], fields[0]) && b[w..] == Encode(vs[1..], fields[1..]);
      FieldRoundTrip(vs[0], fields[0]);
      RecordRoundTrip(vs[1..], fields[1..]);
    }
  }

  // ---- Where the bytes are ----

  /** Little-endian: byte `k` is the digit of weight 256 to the k. */
  lemma {:induction false} LittleEndian(n: nat, width: nat, k: nat)
    requires k < width
    ensures EncodeNat(n, width)[k] == n / Pow256(k) % 256
  {
    if k > 0 {
      LittleEndian(n / 256, width - 1, k - 1);
      DivTwice(n, Pow256(k - 1));
    }
  }

  lemma DivTwice(n: nat, p: nat)
    requires p >= 1
    ensures n / 256 / p == n / (256 * p)
  {
    var q := n / 256;
    var r := q / p;
    assert n == 256 * q + n % 256 && q == p * r + q % p;
    assert n == 256 * p * r + (256 * (q % p) + n % 256);
    DivUnique(n, 256 * p, r, 256 * (q % p) + n % 256);
  }

  lemma DivUnique(n: nat, d: nat, q: nat, r: nat)
    requires r < d && n == d * q + r
    ensures n / d == q
  {
    var q' := n / d;
    assert n == d * q' + n % d;
    Mono(q' + 1, q, d);
    Mono(q + 1, q', d);
  }

  lemma Mono(x: int, y: int, d: nat)
    ensures x <= y ==> d * x <= d * y
  {
  }

  lemma {:induction false} SizeOfPrefix(fields: seq<Field>, i: nat)
    requires i < |fields|
    ensures Size(fields[..i + 1]) == Size(fields[..i]) + Width(fields[i])
  {
    if i == 0 {
      assert fields[..1][1..] == [];
    } else {
      SizeOfPrefix(fields[1..], i - 1);
      assert fields[..i + 1][1..] == fields[1..][..i] && fields[..i][1..] == fields[1..][..i - 1];
    }
  }

  /** Field `i` of a record lies directly behind the fields before it. */
  lemma {:induction false} FieldAt(vs: seq<Value>, fields: seq<Field>, i: nat)
    requires AllFit(vs, fields) && i < |vs|
    ensures var b, o := Encode(vs, fields), Size(fields[..i]);
      o + Width(fields[i]) <= |b| && b[o..o + Width(fields[i])] == EncodeField(vs[i], fields[i])
  {
    hide EncodeField, Width;
    if i > 0 {
      FieldAt(vs[1..], fields[1..], i - 1);
      assert fields[..i][1..] == fields[1..][..i - 1];
    }
  }

  /** Row `i` of a table lies behind `i` rows of the same size. */
  lemma {:induction false} RowAt(rows: seq<seq<Value>>, fields: seq<Field>, i: nat)
    requires RowsFit(rows, fields) && i < |rows|
    ensures var b, o := EncodeRows(rows, fields), Total(i, Size(fields));
      o + Size(fields) <= |b| && b[o..o + Size(fields)] == Encode(rows[i], fields)
  {
    hide Encode, Size;
    if i > 0 {
      RowAt(rows[1..], fields, i - 1);
    }
  }

  // ---- Tables ----

  ghost predicate RowsFit(rows: seq<seq<Value>>, fields: seq<Field>) {
    forall i :: 0 <= i < |rows| ==> AllFit(rows[i], fields)
  }

  /** n * width, as repeated addition. */
  function Total(n: nat, width: nat): nat {
    if n == 0 then 0 else width + Total(n - 1, width)
  }

  function EncodeRows(rows: seq<seq<Value>>, fields: seq<Field>): (b: seq<byte>)
    requires RowsFit(rows, fields)
    ensures |b| == Total(|rows|, Size(fields))
  {
    if rows == [] then [] else
      Encode(rows[0], fields) + EncodeRows(rows[1..], fields)
  }

  function DecodeRows(b: seq<byte>, n: nat, fields: seq<Field>): (rows: seq<seq<Value>>)
    requires |b| == Total(n, Size(fields))
    ensures |rows| == n
    ensures forall i :: 0 <= i < n ==> Shaped(rows[i], fields)
  {
    if n == 0 then [] else
      [Decode(b[..Size(fields)], fields)] + DecodeRows(b[Size(fields)..], n - 1, fields)
  }

  ghost predicate Shaped(vs: seq<Value>, fields: seq<Field>) {
    |vs| == |fields| && forall i :: 0 <= i < |vs| ==> SameShape(vs[i], fields[i])
  }

  lemma {:induction false} RowsRoundTrip(rows: seq<seq<Value>>, fields: seq<Field>)
    requires RowsFit(rows, fields)
    ensures DecodeRows(EncodeRows(rows, fields), |rows|, fields) == rows
  {
    if rows != [] {
      var b := EncodeRows(rows, fields);
      assert b[..Size(fields)] == Encode(rows[0], fields);
      assert b[Size(fields)..] == EncodeRows(rows[1..], fields);
      RecordRoundTrip(rows[0], fields);
      RowsRoundTrip(rows[1..], fields);
    }
  }
}
