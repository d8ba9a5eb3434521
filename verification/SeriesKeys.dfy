/** The keys under which the uploaders remember what they have stored: the day, a colon, the name
    (uploader/tagged.go, uploader/index.go, with the hash that keeps the name). */
module SeriesKeys {
  import opened ByteStrings
  import opened Varint

  const COLON: byte := 58

  function Decimal(n: nat): (s: bytes)
    ensures s != []
  {
    if n < 10 then [48 + n as byte] else Decimal(n / 10) + [48 + (n % 10) as byte]
  }

  function Key(days: uint16, name: bytes): bytes
  {
    Decimal(days) + [COLON] + name
  }

  lemma {:induction false} DecimalDigits(n: nat)
    ensures COLON !in Decimal(n)
  {
    if n >= 10 {
      DecimalDigits(n / 10);
    }
  }

  lemma {:induction false} DecimalInjective(a: nat, b: nat)
    requires Decimal(a) == Decimal(b)
    ensures a == b
  {
    var x, y := Decimal(a), Decimal(b);
    assert x[|x| - 1] == y[|y| - 1] && x[..|x| - 1] == y[..|y| - 1];
    if a >= 10 {
      assert x[..|x| - 1] == Decimal(a / 10);
    }
    if b >= 10 {
      assert y[..|y| - 1] == Decimal(b / 10);
    }
    if a >= 10 && b >= 10 {
      DecimalInjective(a / 10, b / 10);
    }
  }

  /** Different days or names never share a key, not even for names that begin with digits. */
  lemma {:induction false} KeyInjective(d1: uint16, n1: bytes, d2: uint16, n2: bytes)
    requires Key(d1, n1) == Key(d2, n2)
    ensures d1 == d2 && n1 == n2
  {
    var x, y := Decimal(d1), Decimal(d2);
    DecimalDigits(d1);
    DecimalDigits(d2);
    var k, k' := x + [COLON] + n1, y + [COLON] + n2;
    hide Decimal, IndexByte;
    assert forall i | 0 <= i < |x| :: k[i] == x[i];
    assert forall i | 0 <= i < |y| :: k'[i] == y[i];
    IndexByteUnique(k, COLON, |x|);
    IndexByteUnique(k', COLON, |y|);
    assert k[..|x|] == x && k'[..|y|] == y && k[|x| + 1..] == n1 && k'[|y| + 1..] == n2;
    DecimalInjective(d1, d2);
  }
}
