/** String helpers the services rely on: lower-casing (ASCII letters only),
    the lexicographic order the store sorts text columns by, and the hex
    encoding of random bytes used for e-mail verification tokens. */
module Text {

  predicate IsUpper(c: char) { 'A' <= c <= 'Z' }

  function LowerChar(c: char): (r: char)
    ensures !IsUpper(r)
    ensures IsUpper(c) ==> r as int == c as int + 32
    ensures !IsUpper(c) ==> r == c
  {
    if IsUpper(c) then (c as int + 32) as char else c
  }

  /** `String.prototype.toLowerCase`, restricted to ASCII letters. */
  function Lower(s: string): (r: string)
    ensures |r| == |s|
    ensures forall i | 0 <= i < |s| :: r[i] == LowerChar(s[i])
  {
    if s == [] then [] else [LowerChar(s[0])] + Lower(s[1..])
  }

  predicate HasUpper(s: string) { exists i | 0 <= i < |s| :: IsUpper(s[i]) }

  /** A lower-cased string has no upper-case letter left. */
  lemma LowerHasNoUpper(s: string)
    ensures !HasUpper(Lower(s))
  {
    var r := Lower(s);
    forall i | 0 <= i < |r| ensures !IsUpper(r[i]) {
      assert r[i] == LowerChar(s[i]);
    }
  }

  /** Lower-casing twice is lower-casing once. */
  lemma {:induction false} LowerIdempotent(s: string)
    ensures Lower(Lower(s)) == Lower(s)
  {
    if s != [] {
      LowerIdempotent(s[1..]);
      assert Lower(s)[1..] == Lower(s[1..]);
    }
  }

  /** Lexicographic order by character code, the order of an `orderBy: 'asc'`
      on a text column. */
  predicate StrLe(a: string, b: string)
  {
    if a == [] then true
    else if b == [] then false
    else if a[0] != b[0] then a[0] < b[0]
    else StrLe(a[1..], b[1..])
  }

  lemma {:induction false} StrLeTotal(a: string, b: string)
    ensures StrLe(a, b) || StrLe(b, a)
  {
    if a != [] && b != [] && a[0] == b[0] {
      StrLeTotal(a[1..], b[1..]);
    }
  }

  lemma {:induction false} StrLeTransitive(a: string, b: string, c: string)
    requires StrLe(a, b) && StrLe(b, c)
    ensures StrLe(a, c)
  {
    if a != [] && b != [] && c != [] && a[0] == b[0] && b[0] == c[0] {
      StrLeTransitive(a[1..], b[1..], c[1..]);
    }
  }

  lemma {:induction false} StrLeAntisymmetric(a: string, b: string)
    requires StrLe(a, b) && StrLe(b, a)
    ensures a == b
  {
    if a != [] && b != [] {
      StrLeAntisymmetric(a[1..], b[1..]);
      assert a == [a[0]] + a[1..];
      assert b == [b[0]] + b[1..];
    }
  }

  predicate IsHexChar(c: char) { '0' <= c <= '9' || 'a' <= c <= 'f' }

  function HexDigit(n: nat): (c: char)
    requires n < 16
    ensures IsHexChar(c)
  {
    if n < 10 then ('0' as int + n) as char else ('a' as int + n - 10) as char
  }

  function HexValue(c: char): (n: nat)
    requires IsHexChar(c)
    ensures n < 16 && HexDigit(n) == c
  {
    if c <= '9' then c as int - '0' as int else c as int - 'a' as int + 10
  }

  /** `Buffer.toString('hex')`: two lower-case hex digits per byte, high
      nibble first. */
  function Hex(bytes: seq<bv8>): (r: string)
    ensures |r| == 2 * |bytes|
    ensures forall i | 0 <= i < |r| :: IsHexChar(r[i])
  {
    if bytes == [] then ""
    else [HexDigit(bytes[0] as nat / 16), HexDigit(bytes[0] as nat % 16)] + Hex(bytes[1..])
  }

  predicate IsHexString(s: string) { |s| % 2 == 0 && forall i | 0 <= i < |s| :: IsHexChar(s[i]) }

  /** Reads back the bytes of a hex string. */
  function Unhex(s: string): (r: seq<bv8>)
    requires IsHexString(s)
    ensures |r| == |s| / 2
  {
    if s == [] then []
    else [(HexValue(s[0]) * 16 + HexValue(s[1])) as bv8] + Unhex(s[2..])
  }

  /** One byte survives being split into its two hex digits. */
  lemma ByteRoundTrip(x: bv8)
    ensures HexValue(HexDigit(x as nat / 16)) * 16 + HexValue(HexDigit(x as nat % 16)) == x as nat
  {
    var n := x as nat;
    assert n / 16 * 16 + n % 16 == n;
  }

  /** Hex encoding loses nothing: distinct byte strings give distinct tokens. */
  lemma {:induction false} UnhexHex(bytes: seq<bv8>)
    ensures IsHexString(Hex(bytes)) && Unhex(Hex(bytes)) == bytes
  {
    if bytes != [] {
      var h := Hex(bytes);
      assert h[2..] == Hex(bytes[1..]);
      UnhexHex(bytes[1..]);
      ByteRoundTrip(bytes[0]);
      var n := HexValue(h[0]) * 16 + HexValue(h[1]);
      assert n == bytes[0] as nat;
      assert n as bv8 == bytes[0];
    }
  }

  lemma HexInjective(a: seq<bv8>, b: seq<bv8>)
    requires Hex(a) == Hex(b)
    ensures a == b
  {
    UnhexHex(a);
    UnhexHex(b);
  }
}
