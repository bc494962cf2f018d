/** The checkout hash of e2e/src/ports.ts: FNV-1a written with JavaScript's
    signed 32-bit operators. */
module FnvHash {

  const OFFSET_BASIS := 2166136261
  const PRIME := 16777619
  const TWO32 := 0x1_0000_0000
  const TWO31 := 0x8000_0000

  type CodeUnit = c: int | 0 <= c < 0x1_0000
  type Word = w: int | 0 <= w < TWO32

  /** The abstract operations ToUint32 and ToInt32 of ECMAScript on integers. */
  function ToUint32(x: int): Word { x % TWO32 }
  function ToInt32(x: int): int {
    var u := ToUint32(x);
    if u < TWO31 then u else u - TWO32
  }

  /** Bitwise exclusive or of two numbers below m, for m a power of two. */
  function Xor(a: nat, b: nat, m: nat): (r: nat)
    requires a < m && b < m
    ensures r < m
  {
    if m == 1 then 0
    else if m % 2 == 1 then 0
    else (if a % 2 == b % 2 then 0 else 1) + 2 * Xor(a / 2, b / 2, m / 2)
  }

  /** JavaScript's `^`, `Math.imul` and `>>> 0`. */
  function JsXor(a: int, b: int): int { ToInt32(Xor(ToUint32(a), ToUint32(b), TWO32)) }
  function JsImul(a: int, b: int): int { ToInt32(a * b) }
  function JsUnsigned(a: int): Word { ToUint32(a) }

  /** The 32-bit FNV-1a recurrence on unsigned words, over the first n code units. */
  function Fnv1a(text: seq<CodeUnit>, n: nat): Word
    requires n <= |text|
  {
    if n == 0 then OFFSET_BASIS
    else (Xor(Fnv1a(text, n - 1), text[n - 1], TWO32) * PRIME) % TWO32
  }

  /** Octet FNV-1a (draft-eastlake-fnv): each octet is folded into the low eight bits. */
  function Fnv1aOctets(octets: seq<int>, n: nat): Word
    requires n <= |octets| && forall i :: 0 <= i < n ==> 0 <= octets[i] < 256
  {
    if n == 0 then OFFSET_BASIS
    else
      var h := Fnv1aOctets(octets, n - 1);
      ((h - h % 256 + Xor(h % 256, octets[n - 1], 256)) * PRIME) % TWO32
  }

  /** Binary digit k of a number. */
  function Digit(x: nat, k: nat): nat { if k == 0 then x % 2 else Digit(x / 2, k - 1) }

  /** Exclusive or, digit by digit: 1 exactly where the two numbers differ. */
  lemma {:induction false} XorDigits(a: nat, b: nat, m: nat, k: nat)
    requires PowerOfTwo(m) && a < m && b < m
    ensures Digit(Xor(a, b, m), k) == if Digit(a, k) == Digit(b, k) then 0 else 1
    decreases m
  {
    if m == 1 {
      ZeroDigits(k);
    } else {
      var half := Xor(a / 2, b / 2, m / 2);
      assert Xor(a, b, m) / 2 == half && Xor(a, b, m) % 2 == if a % 2 == b % 2 then 0 else 1;
      if k > 0 { XorDigits(a / 2, b / 2, m / 2, k - 1); }
    }
  }

  lemma {:induction false} ZeroDigits(k: nat)
    ensures Digit(0, k) == 0
  {
    if k > 0 { ZeroDigits(k - 1); }
  }

  lemma {:induction false} XorStep(a: nat, b: nat, half: nat)
    requires half > 0 && a < 2 * half && b < 2 * half
    ensures Xor(a, b, 2 * half) == (if a % 2 == b % 2 then 0 else 1) + 2 * Xor(a / 2, b / 2, half)
  {
    assert 2 * half % 2 == 0 && 2 * half / 2 == half;
  }

  /** The low octet of the offset basis with that of "a": 11000101 and 01100001. */
  lemma {:induction false} XorWithA()
    ensures Xor(197, 97, 256) == 164
  {
    assert Xor(0, 0, 1) == 0;
    hide Xor;
    XorStep(1, 0, 1);
    XorStep(3, 1, 2);
    XorStep(6, 3, 4);
    XorStep(12, 6, 8);
    XorStep(24, 12, 16);
    XorStep(49, 24, 32);
    XorStep(98, 48, 64);
    XorStep(197, 97, 128);
  }

  /** The published hash of the text "a". */
  lemma {:induction false} HashOfA()
    ensures Fnv1a([97], 1) == 3826002220
  {
    hide Xor;
    XorWithA();
    XorOfOctet(OFFSET_BASIS, 97);
    assert Fnv1a([97], 0) == OFFSET_BASIS;
  }

  predicate PowerOfTwo(m: nat) {
    m == 1 || (m > 0 && m % 2 == 0 && PowerOfTwo(m / 2))
  }

  lemma {:induction false} HalfOfProduct(high: nat, k: nat, low: nat)
    requires k % 2 == 0
    ensures high * k == 2 * (high * (k / 2))
    ensures (high * k + low) / 2 == high * (k / 2) + low / 2 && (high * k + low) % 2 == low % 2
  {
    var j := k / 2;
    assert k == 2 * j;
    assert high * k == 2 * (high * j);
  }

  /** Exclusive or with a number below k changes only the digits below k. */
  lemma {:induction false} XorLowDigits(high: nat, low: nat, o: nat, k: nat, m: nat)
    requires PowerOfTwo(k) && PowerOfTwo(m) && k <= m
    requires high * k + low < m && low < k && o < k
    ensures Xor(high * k + low, o, m) == high * k + Xor(low, o, k)
    decreases m
  {
    if k == 1 {
      if m > 1 { XorLowDigits(high / 2, 0, 0, 1, m / 2); }
    } else {
      var h, a := high * (k / 2), high * k + low;
      HalfOfProduct(high, k, low);
      assert a / 2 == h + low / 2 && a % 2 == low % 2 && h + low / 2 < m / 2;
      XorLowDigits(high, low / 2, o / 2, k / 2, m / 2);
    }
  }

  lemma {:induction false} XorOfOctet(h: Word, octet: nat)
    requires octet < 256
    ensures Xor(h, octet, TWO32) == h - h % 256 + Xor(h % 256, octet, 256)
  {
    hide Xor;
    WordSizesArePowers();
    assert h / 256 * 256 + h % 256 == h;
    XorLowDigits(h / 256, h % 256, octet, 256, TWO32);
  }

  /** On texts whose code units are octets (for ASCII: their UTF-8 encoding) the
      recurrence is octet FNV-1a. */
  lemma {:induction false} HashIsOctetFnv(text: seq<CodeUnit>, n: nat)
    requires n <= |text| && forall i :: 0 <= i < n ==> text[i] < 256
    ensures Fnv1a(text, n) == Fnv1aOctets(text, n)
  {
    hide Xor;
    if n > 0 {
      HashIsOctetFnv(text, n - 1);
      XorOfOctet(Fnv1a(text, n - 1), text[n - 1]);
    }
  }

  lemma Doubled(m: nat)
    requires PowerOfTwo(m)
    ensures PowerOfTwo(2 * m)
  {
  }

  lemma {:induction false} ShiftedByAByte(m: nat)
    requires PowerOfTwo(m)
    ensures PowerOfTwo(256 * m)
  {
    hide PowerOfTwo;
    Doubled(m);
    Doubled(2 * m);
    Doubled(4 * m);
    Doubled(8 * m);
    Doubled(16 * m);
    Doubled(32 * m);
    Doubled(64 * m);
    Doubled(128 * m);
  }

  lemma {:induction false} WordSizesArePowers()
    ensures PowerOfTwo(256) && PowerOfTwo(TWO32)
  {
    assert PowerOfTwo(1);
    hide PowerOfTwo;
    ShiftedByAByte(1);
    ShiftedByAByte(256);
    ShiftedByAByte(0x1_0000);
    ShiftedByAByte(0x100_0000);
  }

  lemma {:induction false} SignedProductAgrees(a: int)
    ensures ToUint32(JsImul(ToInt32(a), PRIME)) == (ToUint32(a) * PRIME) % TWO32
  {
    var k := if ToUint32(a) < TWO31 then 0 else 1;
    assert ToInt32(a) * PRIME == ToUint32(a) * PRIME - k * PRIME * TWO32;
    WholeWordsVanish(ToUint32(a) * PRIME, k * PRIME);
    WholeWordsVanish(ToInt32(a) * PRIME, if ToUint32(ToInt32(a) * PRIME) < TWO31 then 0 else 1);
    hide ToInt32;
  }

  lemma WholeWordsVanish(x: int, k: int)
    ensures (x - k * TWO32) % TWO32 == x % TWO32
  {
  }

  /** One round of the loop, on the signed value and on the word it stands for. */
  lemma {:induction false} RoundAgrees(h: int, c: CodeUnit)
    ensures ToUint32(JsImul(JsXor(h, c), PRIME)) == (Xor(ToUint32(h), c, TWO32) * PRIME) % TWO32
  {
    hide Xor;
    var x := Xor(ToUint32(h), c, TWO32);
    assert ToUint32(c) == c;
    assert ToUint32(x) == x;
    SignedProductAgrees(x);
  }

  /** The loop of signed operators computes the unsigned recurrence on every text. */
  method Hash(text: seq<CodeUnit>) returns (r: int)
    ensures r == Fnv1a(text, |text|)
    ensures 0 <= r < TWO32
  {
    var h := OFFSET_BASIS;
    for i := 0 to |text|
      invariant ToUint32(h) == Fnv1a(text, i)
    {
      RoundAgrees(h, text[i]);
      h := JsXor(h, text[i]);
      h := JsImul(h, PRIME);
      hide ToUint32, JsXor, JsImul, Xor;
    }
    r := JsUnsigned(h);
  }
}
