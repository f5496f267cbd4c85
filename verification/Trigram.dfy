/** The similarity score: the Dice coefficient of two multisets of byte trigrams. */
module Trigram {
  import opened Text

  type Bytes = seq<nat>

  /** The UTF-8 encoding of one code point (RFC 3629, section 3). */
  function Encode(c: char): (b: Bytes)
    ensures 1 <= |b| <= 4
  {
    var n := c as int;
    if n < 0x80 then [n]
    else if n < 0x800 then [0xC0 + n / 0x40, 0x80 + n % 0x40]
    else if n < 0x10000 then [0xE0 + n / 0x1000, 0x80 + n / 0x40 % 0x40, 0x80 + n % 0x40]
    else [0xF0 + n / 0x40000, 0x80 + n / 0x1000 % 0x40, 0x80 + n / 0x40 % 0x40, 0x80 + n % 0x40]
  }

  function Utf8(s: string): (b: Bytes)
    ensures |b| >= |s|
  {
    if s == "" then [] else Encode(s[0]) + Utf8(s[1..])
  }

  /** The number of bytes a first byte announces; 0 for a byte that starts nothing. */
  function Announced(first: nat): nat {
    if first < 0x80 then 1
    else if 0xC0 <= first < 0xE0 then 2
    else if 0xE0 <= first < 0xF0 then 3
    else if 0xF0 <= first < 0xF8 then 4
    else 0
  }

  /** The number a byte sequence of one code point stands for: the low bits of its bytes, in order. */
  function CodeOf(b: Bytes): nat
    requires 1 <= |b| <= 4
  {
    if |b| == 1 then b[0]
    else if |b| == 2 then b[0] % 0x20 * 0x40 + b[1] % 0x40
    else if |b| == 3 then b[0] % 0x10 * 0x1000 + b[1] % 0x40 * 0x40 + b[2] % 0x40
    else b[0] % 0x8 * 0x40000 + b[1] % 0x40 * 0x1000 + b[2] % 0x40 * 0x40 + b[3] % 0x40
  }

  /** Reading bytes as code points, one after another. */
  function Codes(b: Bytes): seq<nat>
    decreases |b|
  {
    if b == [] || Announced(b[0]) == 0 || Announced(b[0]) > |b| then []
    else [CodeOf(b[..Announced(b[0])])] + Codes(b[Announced(b[0])..])
  }

  /** One code point: the first byte announces the length, the shortest one that holds it, the others carry
      six bits each, and together they are the code point. */
  lemma EncodeDecodes(c: char)
    ensures var b, n := Encode(c), c as int;
            && |b| == Announced(b[0]) && CodeOf(b) == n
            && (forall i :: 0 <= i < |b| ==> b[i] < 0x100) && (forall i :: 1 <= i < |b| ==> 0x80 <= b[i] < 0xC0)
            && (n < 0x80 <==> |b| == 1) && (n < 0x800 <==> |b| <= 2) && (n < 0x10000 <==> |b| <= 3)
  {
    var n := c as int;
    Parts(n);
    if n < 0x80 {
    } else if n < 0x800 {
      TwoBytes(n);
    } else if n < 0x10000 {
      ThreeBytes(n);
    } else {
      FourBytes(n);
    }
  }

  lemma Parts(n: nat)
    ensures n == n / 0x40 * 0x40 + n % 0x40
    ensures n / 0x40 == n / 0x1000 * 0x40 + n / 0x40 % 0x40
    ensures n / 0x1000 == n / 0x40000 * 0x40 + n / 0x1000 % 0x40
  {
    assert n / 0x40 / 0x40 == n / 0x1000;
    assert n / 0x1000 / 0x40 == n / 0x40000;
  }

  lemma TwoBytes(n: nat)
    requires 0x80 <= n < 0x800
    ensures (0xC0 + n / 0x40) % 0x20 == n / 0x40 && 0xC0 <= 0xC0 + n / 0x40 < 0xE0
    ensures (0x80 + n % 0x40) % 0x40 == n % 0x40
  {
  }

  lemma ThreeBytes(n: nat)
    requires 0x800 <= n < 0x10000
    ensures (0xE0 + n / 0x1000) % 0x10 == n / 0x1000 && 0xE0 <= 0xE0 + n / 0x1000 < 0xF0
    ensures (0x80 + n / 0x40 % 0x40) % 0x40 == n / 0x40 % 0x40
    ensures (0x80 + n % 0x40) % 0x40 == n % 0x40
  {
  }

  lemma FourBytes(n: nat)
    requires 0x10000 <= n < 0x110000
    ensures (0xF0 + n / 0x40000) % 0x8 == n / 0x40000 && 0xF0 <= 0xF0 + n / 0x40000 < 0xF8
    ensures (0x80 + n / 0x1000 % 0x40) % 0x40 == n / 0x1000 % 0x40
    ensures (0x80 + n / 0x40 % 0x40) % 0x40 == n / 0x40 % 0x40
    ensures (0x80 + n % 0x40) % 0x40 == n % 0x40
  {
  }

  /** The bytes of a text read back as its characters, so no two texts share them. */
  lemma {:induction false} Utf8Decodes(s: string)
    ensures Codes(Utf8(s)) == seq(|s|, i requires 0 <= i < |s| => s[i] as int)
    decreases |s|
  {
    if s != "" {
      var b := Encode(s[0]);
      EncodeDecodes(s[0]);
      Utf8Decodes(s[1..]);
      assert Utf8(s)[..|b|] == b && Utf8(s)[|b|..] == Utf8(s[1..]);
    }
  }

  const BLANK := 32

  /** Two blanks of padding at each end. */
  function Padded(value: string): (b: Bytes)
    ensures |b| >= 4
  {
    [BLANK, BLANK] + Utf8(value) + [BLANK, BLANK]
  }

  /** Every window of three bytes, in order. */
  function Grams(value: string): (g: seq<Bytes>)
    ensures |g| == |Padded(value)| - 2
  {
    var padded := Padded(value);
    seq(|padded| - 2, i requires 0 <= i < |padded| - 2 => padded[i..i + 3])
  }

  /** The trigrams of a text are the windows of its bytes between two blanks on either side. */
  lemma GramBytes(value: string)
    ensures |Grams(value)| == |Utf8(value)| + 2
    ensures forall k, j :: 0 <= k < |Grams(value)| && 0 <= j < 3 ==>
              && |Grams(value)[k]| == 3
              && Grams(value)[k][j] == if 2 <= k + j < |Utf8(value)| + 2 then Utf8(value)[k + j - 2] else 32
  {
    forall k, j | 0 <= k < |Grams(value)| && 0 <= j < 3
      ensures |Grams(value)[k]| == 3 && Grams(value)[k][j] == Padded(value)[k + j]
    {
      assert Grams(value)[k] == Padded(value)[k..k + 3];
    }
  }

  method Trigrams(value: string) returns (result: seq<Bytes>)
    ensures result == Grams(value)
  {
    var padded := Padded(value);
    result := [];
    var i := 0;
    while i + 3 <= |padded|
      invariant 0 <= i <= |padded| - 2 && |result| == i
      invariant forall k :: 0 <= k < i ==> result[k] == padded[k..k + 3]
    {
      result := result + [padded[i..i + 3]];
      i := i + 1;
    }
  }

  /** How often each trigram occurs. */
  method CountGrams(grams: seq<Bytes>) returns (counts: map<Bytes, nat>)
    ensures forall g :: g in counts <==> g in grams
    ensures forall g :: g in counts ==> counts[g] == multiset(grams)[g]
  {
    counts := map[];
    var i := 0;
    while i < |grams|
      invariant 0 <= i <= |grams|
      invariant forall g :: g in counts <==> g in grams[..i]
      invariant forall g :: g in counts ==> counts[g] == multiset(grams[..i])[g]
    {
      var g := grams[i];
      assert grams[..i + 1] == grams[..i] + [g];
      counts := counts[g := (if g in counts then counts[g] else 0) + 1];
      i := i + 1;
    }
    assert grams[..i] == grams;
  }

  /** Twice the overlap over the total, 0 when there is nothing to compare. */
  function Ratio(overlap: nat, total: nat): real {
    if total == 0 then 0.0 else 2.0 * (overlap as real) / (total as real)
  }

  /** The Dice coefficient. */
  function Dice(a: multiset<Bytes>, b: multiset<Bytes>): real {
    Ratio(|a * b|, |a| + |b|)
  }

  /** The score of two texts, as a function of their normal forms. */
  function Score(a: string, b: string): real {
    if a == "" || b == "" then 0.0
    else if a == b then 1.0
    else Dice(multiset(Grams(a)), multiset(Grams(b)))
  }

  function Similarity(u: Text, a: string, b: string): real {
    Score(u.Normalized(a), u.Normalized(b))
  }

  /** The score does not depend on the order in which the counting maps are walked. */
  method TrigramSimilarity(u: Text, a0: string, b0: string) returns (score: real)
    ensures score == Similarity(u, a0, b0)
  {
    hide *;
    var a := NormalizedText(u, a0);
    var b := NormalizedText(u, b0);
    ScoreCases(u, a0, b0);
    if a == "" || b == "" {
      return 0.0;
    }
    if a == b {
      return 1.0;
    }
    var gramsOfA := Trigrams(a);
    var gramsOfB := Trigrams(b);
    var gramsA := CountGrams(gramsOfA);
    var gramsB := CountGrams(gramsOfB);
    ghost var ma, mb := multiset(gramsOfA), multiset(gramsOfB);

    var intersection, total: nat := 0, 0;
    var keys := gramsA.Keys;
    ghost var left := ma;
    while keys != {}
      invariant keys <= gramsA.Keys
      invariant forall g :: left[g] == if g in keys then ma[g] else 0
      invariant total + |left| == |ma| && intersection + |left * mb| == |ma * mb|
      decreases keys
    {
      var gram :| gram in keys;
      TakeGram(left, mb, gram);
      var count := gramsA[gram];
      total := total + count;
      if gram in gramsB {
        var other := gramsB[gram];
        if count < other {
          intersection := intersection + count;
        } else {
          intersection := intersection + other;
        }
      }
      left := left[gram := 0];
      keys := keys - {gram};
    }
    NoneLeft(left, mb);

    keys := gramsB.Keys;
    left := mb;
    while keys != {}
      invariant keys <= gramsB.Keys
      invariant forall g :: left[g] == if g in keys then mb[g] else 0
      invariant total + |left| == |ma| + |mb|
      decreases keys
    {
      var gram :| gram in keys;
      TakeGram(left, mb, gram);
      total := total + gramsB[gram];
      left := left[gram := 0];
      keys := keys - {gram};
    }
    NoneLeft(left, mb);
    score := Ratio(intersection, total);
  }

  lemma ScoreCases(u: Text, a0: string, b0: string)
    ensures var a, b, score := u.Normalized(a0), u.Normalized(b0), Similarity(u, a0, b0);
            && (a == "" || b == "" ==> score == 0.0)
            && (a == b != "" ==> score == 1.0)
            && (a != "" && b != "" && a != b ==>
                  score == Ratio(|multiset(Grams(a)) * multiset(Grams(b))|,
                      |multiset(Grams(a))| + |multiset(Grams(b))|))
  {
  }

  /** Removing one trigram removes its own share of the size and of the intersection. */
  lemma TakeGram(a: multiset<Bytes>, b: multiset<Bytes>, g: Bytes)
    ensures |a[g := 0]| + a[g] == |a|
    ensures |a[g := 0] * b| + (if a[g] <= b[g] then a[g] else b[g]) == |a * b|
  {
    assert a[g := 0] * b == (a * b)[g := 0];
  }

  lemma NoneLeft(a: multiset<Bytes>, b: multiset<Bytes>)
    requires forall g :: a[g] == 0
    ensures |a| == 0 && |a * b| == 0
  {
    assert a == multiset{};
    assert a * b == multiset{};
  }

  // ---- properties of the score ----

  lemma SubBag(a: multiset<Bytes>, b: multiset<Bytes>)
    requires a <= b
    ensures |a| <= |b| && (|a| == |b| ==> a == b)
  {
    assert b == a + (b - a);
    if |a| == |b| {
      assert |b - a| == 0;
      assert b - a == multiset{};
    }
  }

  lemma DiceLaws(a: multiset<Bytes>, b: multiset<Bytes>)
    requires |a| + |b| > 0
    ensures Dice(a, b) == Dice(b, a)
    ensures 0.0 <= Dice(a, b) <= 1.0
    ensures Dice(a, b) == 1.0 <==> a == b
    ensures Dice(a, b) == 0.0 <==> a !! b
  {
    var both, n := |a * b|, |a| + |b|;
    assert a * b == b * a;
    SubBag(a * b, a);
    SubBag(a * b, b);
    assert 2 * both <= n;
    var x, y := both as real, n as real;
    assert 2.0 * x <= y && y > 0.0;
    QuotientLaws(2.0 * x, y);
    assert 2 * both == n <==> a == b by {
      if a == b {
        assert a * b == a;
      }
    }
    assert both == 0 <==> a !! b by {
      if a !! b {
        assert a * b == multiset{};
      }
      if both == 0 {
        assert a * b == multiset{};
      }
    }
  }

  lemma QuotientLaws(x: real, y: real)
    requires 0.0 <= x <= y && y > 0.0
    ensures 0.0 <= x / y <= 1.0
    ensures x / y == 1.0 <==> x == y
    ensures x / y == 0.0 <==> x == 0.0
  {
    var q := x / y;
    assert q * y == x && (q - 1.0) * y == x - y;
    SignOfProduct(q, y);
    SignOfProduct(q - 1.0, y);
  }

  lemma SignOfProduct(p: real, y: real)
    requires y > 0.0
    ensures p > 0.0 ==> p * y > 0.0
    ensures p < 0.0 ==> p * y < 0.0
    ensures p == 0.0 ==> p * y == 0.0
  {
  }

  /** For texts that normalise to something, the score is the Dice coefficient of their trigram
      multisets: symmetric, between 0 and 1, and 1 exactly when the multisets agree. */
  lemma SimilarityLaws(u: Text, a: string, b: string)
    requires u.Normalized(a) != "" && u.Normalized(b) != ""
    ensures var x, y := multiset(Grams(u.Normalized(a))), multiset(Grams(u.Normalized(b)));
            && Similarity(u, a, b) * ((|x| + |y|) as real) == 2.0 * (|x * y| as real)
            && Similarity(u, a, b) == Similarity(u, b, a)
            && 0.0 <= Similarity(u, a, b) <= 1.0
            && (Similarity(u, a, b) == 1.0 <==> x == y)
            && (Similarity(u, a, b) == 0.0 <==> x !! y)
  {
    var x, y := multiset(Grams(u.Normalized(a))), multiset(Grams(u.Normalized(b)));
    hide *;
    SimilarityIsDice(u, a, b);
    SimilarityIsDice(u, b, a);
    DiceLaws(x, y);
    DiceTimes(x, y);
  }

  /** Where the code answers 1 at once the coefficient is 1 too. */
  lemma SimilarityIsDice(u: Text, a: string, b: string)
    requires u.Normalized(a) != "" && u.Normalized(b) != ""
    ensures var x, y := multiset(Grams(u.Normalized(a))), multiset(Grams(u.Normalized(b)));
            |x| > 0 && Similarity(u, a, b) == Dice(x, y)
  {
    var x, y := multiset(Grams(u.Normalized(a))), multiset(Grams(u.Normalized(b)));
    DiceLaws(x, y);
    hide Dice;
  }

  lemma DiceTimes(a: multiset<Bytes>, b: multiset<Bytes>)
    requires |a| + |b| > 0
    ensures Dice(a, b) * ((|a| + |b|) as real) == 2.0 * (|a * b| as real)
  {
    Quotient(2.0 * (|a * b| as real), (|a| + |b|) as real);
  }

  lemma Quotient(x: real, y: real)
    requires y != 0.0
    ensures x / y * y == x
  {
  }

  lemma SimilarityRange(u: Text, a: string, b: string)
    ensures 0.0 <= Similarity(u, a, b) <= 1.0
    ensures Similarity(u, a, b) > 0.0 ==> u.Normalized(a) != "" && u.Normalized(b) != ""
    ensures u.Normalized(a) == u.Normalized(b) != "" ==> Similarity(u, a, b) == 1.0
  {
    if u.Normalized(a) != "" && u.Normalized(b) != "" {
      SimilarityLaws(u, a, b);
    }
  }

  /** Only the normal forms matter. */
  lemma SimilarityOfNormalForms(u: Text, a: string, b: string)
    requires u.Valid()
    ensures Similarity(u, u.Normalized(a), u.Normalized(b)) == Similarity(u, a, b)
  {
    NormalizedIdempotent(u, a);
    NormalizedIdempotent(u, b);
  }
}
