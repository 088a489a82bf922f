/** The 32-bit oracle id: a shift-and-subtract hash over a name's UTF-16 code units, in the wrapping
    integers of section 7.1.6 of ECMA-262. */
module OracleId {

  const TWO_32: int := 0x1_0000_0000
  const TWO_31: int := 0x8000_0000

  type CodeUnit = u: nat | u < 0x1_0000

  /** ToInt32: the value modulo 2^32, read as signed. */
  function ToInt32(n: int): int {
    var m := n % TWO_32;
    if m >= TWO_31 then m - TWO_32 else m
  }

  /** Shifting left by five bits, as the language shifts: in 32 bits. */
  function ShiftLeft5(n: int): int { ToInt32(ToInt32(n) * 32) }

  function Abs(n: int): nat { if n < 0 then -n else n }

  /** The name read as a number in base 31. */
  function Polynomial(name: seq<CodeUnit>): nat {
    if name == [] then 0 else Polynomial(name[..|name| - 1]) * 31 + name[|name| - 1]
  }

  function Pow31(n: nat): nat { if n == 0 then 1 else 31 * Pow31(n - 1) }

  function Id(name: seq<CodeUnit>): nat { Abs(ToInt32(Polynomial(name))) }

  lemma ToInt32Congruent(n: int, k: int)
    ensures ToInt32(n + k * TWO_32) == ToInt32(n)
  {
    assert (n + k * TWO_32) % TWO_32 == n % TWO_32;
  }

  lemma ToInt32Multiple(n: int) returns (k: int)
    ensures ToInt32(n) == n + k * TWO_32
  {
    k := -(n / TWO_32) - if n % TWO_32 >= TWO_31 then 1 else 0;
  }

  /** One round of the loop computes 31 * hash + c in wrapping arithmetic. */
  lemma RoundMultipliesBy31(p: nat, c: CodeUnit)
    ensures ToInt32(ShiftLeft5(ToInt32(p)) - ToInt32(p) + c) == ToInt32(p * 31 + c)
  {
    var h := ToInt32(p);
    var k := ToInt32Multiple(p);
    var j := ToInt32Multiple(h);
    var i := ToInt32Multiple(ToInt32(h) * 32);
    assert ShiftLeft5(h) - h + c == p * 31 + c + (31 * k + 32 * j + i) * TWO_32;
    ToInt32Congruent(p * 31 + c, 31 * k + 32 * j + i);
  }

  /** The hashing loop. */
  method ToOracleId(name: seq<CodeUnit>) returns (id: nat)
    ensures id == Id(name)
  {
    var hash := 0;
    if |name| == 0 { return hash; }
    var i := 0;
    while i < |name|
      invariant i <= |name| && hash == ToInt32(Polynomial(name[..i]))
    {
      RoundMultipliesBy31(Polynomial(name[..i]), name[i]);
      assert name[..i + 1][..i] == name[..i];
      var chr := name[i];
      hash := ShiftLeft5(hash) - hash + chr;
      hash := ToInt32(hash);
      i := i + 1;
    }
    assert name[..|name|] == name;
    id := if hash < 0 then -hash else hash;
  }

  lemma {:induction false} PolynomialConcat(s: seq<CodeUnit>, t: seq<CodeUnit>)
    ensures Polynomial(s + t) == Polynomial(s) * Pow31(|t|) + Polynomial(t)
  {
    if t == [] {
      assert s + t == s;
    } else {
      var init, last := t[..|t| - 1], t[|t| - 1];
      PolynomialConcat(s, init);
      assert (s + t)[..|s + t| - 1] == s + init;
      assert Polynomial(s + t) == Polynomial(s + init) * 31 + last;
      assert Pow31(|t|) == 31 * Pow31(|init|);
      calc {
        Polynomial(s + init) * 31 + last;
        (Polynomial(s) * Pow31(|init|) + Polynomial(init)) * 31 + last;
        Polynomial(s) * Pow31(|init|) * 31 + (Polynomial(init) * 31 + last);
        { assert Polynomial(s) * Pow31(|init|) * 31 == Polynomial(s) * (31 * Pow31(|init|)); }
        Polynomial(s) * Pow31(|t|) + Polynomial(t);
      }
    }
  }

  lemma ProductCongruent(x: int, y: int, m: int, k: int, j: int)
    ensures ToInt32((x + k * TWO_32) * m + (y + j * TWO_32)) == ToInt32(x * m + y)
  {
    assert (x + k * TWO_32) * m == x * m + (k * TWO_32) * m;
    assert (k * TWO_32) * m == (k * m) * TWO_32;
    ToInt32Congruent(x * m + y, k * m + j);
  }

  /** The hash of a concatenation follows from the hashes of its parts. */
  lemma HashConcat(s: seq<CodeUnit>, t: seq<CodeUnit>)
    ensures ToInt32(Polynomial(s + t)) == ToInt32(ToInt32(Polynomial(s)) * Pow31(|t|) + ToInt32(Polynomial(t)))
  {
    PolynomialConcat(s, t);
    var k := ToInt32Multiple(Polynomial(s));
    var j := ToInt32Multiple(Polynomial(t));
    ProductCongruent(Polynomial(s), Polynomial(t), Pow31(|t|), k, j);
  }

  lemma ModuloShift(n: int, k: int)
    ensures (n + k * TWO_32) % TWO_32 == n % TWO_32
  {
  }

  /** Two names share an id exactly when their polynomials agree up to sign modulo 2^32. */
  lemma SharedIds(s: seq<CodeUnit>, t: seq<CodeUnit>)
    ensures Id(s) == Id(t) <==>
            (Polynomial(s) - Polynomial(t)) % TWO_32 == 0 || (Polynomial(s) + Polynomial(t)) % TWO_32 == 0
  {
    var p, q := Polynomial(s), Polynomial(t);
    var k := ToInt32Multiple(p);
    var j := ToInt32Multiple(q);
    var a, b := ToInt32(p), ToInt32(q);
    ModuloShift(p - q, k - j);
    ModuloShift(p + q, k + j);
    assert a - b == p - q + (k - j) * TWO_32 && a + b == p + q + (k + j) * TWO_32;
    SmallMultiples(a, b);
  }

  lemma SmallMultiples(a: int, b: int)
    requires -TWO_31 <= a < TWO_31 && -TWO_31 <= b < TWO_31
    ensures Abs(a) == Abs(b) <==> (a - b) % TWO_32 == 0 || (a + b) % TWO_32 == 0
  {
  }

  lemma AppendUnit(name: seq<CodeUnit>, c: CodeUnit)
    ensures Polynomial(name + [c]) == Polynomial(name) * 31 + c
  {
    assert (name + [c])[..|name|] == name;
  }

  const ECHIDNA: seq<CodeUnit> := [101, 99, 104, 105, 100, 110, 97, 95]   // "echidna_"
  const TXKOYBX: seq<CodeUnit> := [116, 120, 107, 111, 121, 98, 120]   // "txkoybx"

  lemma EchidnaValue()
    ensures Polynomial(ECHIDNA) == 2869714378951
  {
    AppendUnit([], 101);
    assert [] + [101] == [101];
    AppendUnit([101], 99);
    assert [101] + [99] == [101, 99];
    AppendUnit([101, 99], 104);
    assert [101, 99] + [104] == [101, 99, 104];
    AppendUnit([101, 99, 104], 105);
    assert [101, 99, 104] + [105] == [101, 99, 104, 105];
    AppendUnit([101, 99, 104, 105], 100);
    assert [101, 99, 104, 105] + [100] == [101, 99, 104, 105, 100];
    AppendUnit([101, 99, 104, 105, 100], 110);
    assert [101, 99, 104, 105, 100] + [110] == [101, 99, 104, 105, 100, 110];
    AppendUnit([101, 99, 104, 105, 100, 110], 97);
    assert [101, 99, 104, 105, 100, 110] + [97] == [101, 99, 104, 105, 100, 110, 97];
    AppendUnit([101, 99, 104, 105, 100, 110, 97], 95);
    assert [101, 99, 104, 105, 100, 110, 97] + [95] == [101, 99, 104, 105, 100, 110, 97, 95];
  }

  lemma TxkoybxValue()
    ensures Polynomial(TXKOYBX) == 106488168103
  {
    AppendUnit([], 116);
    assert [] + [116] == [116];
    AppendUnit([116], 120);
    assert [116] + [120] == [116, 120];
    AppendUnit([116, 120], 107);
    assert [116, 120] + [107] == [116, 120, 107];
    AppendUnit([116, 120, 107], 111);
    assert [116, 120, 107] + [111] == [116, 120, 107, 111];
    AppendUnit([116, 120, 107, 111], 121);
    assert [116, 120, 107, 111] + [121] == [116, 120, 107, 111, 121];
    AppendUnit([116, 120, 107, 111, 121], 98);
    assert [116, 120, 107, 111, 121] + [98] == [116, 120, 107, 111, 121, 98];
    AppendUnit([116, 120, 107, 111, 121, 98], 120);
    assert [116, 120, 107, 111, 121, 98] + [120] == [116, 120, 107, 111, 121, 98, 120];
  }

  /** Ids fit in 31 bits except for one value beyond, which real names reach: the id of the oracle
      name "echidna_txkoybx" is 2^31. */
  lemma IdRange(name: seq<CodeUnit>)
    ensures 0 <= Id(name) <= TWO_31
    ensures Id(name) == TWO_31 <==> Polynomial(name) % TWO_32 == TWO_31
    ensures Id(ECHIDNA + TXKOYBX) == TWO_31
  {
    EchidnaValue();
    TxkoybxValue();
    PolynomialConcat(ECHIDNA, TXKOYBX);
    assert Pow31(4) == 923521;
    assert Pow31(7) == 31 * 31 * 31 * Pow31(4);
  }
}
