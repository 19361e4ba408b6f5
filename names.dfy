/** Node names of the trail tree. A name is 'O' followed by the turns
    taken from the root, 'L' or 'R'; a junction's name is the name of
    either child with its last character cut off. */
module Names {

  function Pow2(n: nat): (r: nat)
    ensures r >= 1
  {
    if n == 0 then 1 else 2 * Pow2(n - 1)
  }

  /** Python's `s[:len(s)-1]`: `s` without its last character (empty for an empty `s`). */
  function Prefix(s: string): string
  {
    if |s| == 0 then "" else s[..|s| - 1]
  }

  /** The turn that stands for binary digit `i % 2`: L is 0, R is 1. */
  function Bit(i: nat): char
  {
    if i % 2 == 0 then 'L' else 'R'
  }

  predicate IsLR(b: string)
  {
    forall t :: 0 <= t < |b| ==> b[t] == 'L' || b[t] == 'R'
  }

  /** The `n`-digit binary form of `i`, most significant digit first. */
  function Bits(n: nat, i: nat): (r: string)
    ensures |r| == n && IsLR(r)
  {
    if n == 0 then "" else Bits(n - 1, i / 2) + [Bit(i)]
  }

  /** The name of node `i` (counted from the left) on level `n` of the tree. */
  function Name(n: nat, i: nat): string
  {
    "O" + Bits(n, i)
  }

  /** The number a string of turns stands for in binary (L is 0, R is 1). */
  function Value(b: string): nat
  {
    if |b| == 0 then 0 else 2 * Value(b[..|b| - 1]) + (if b[|b| - 1] == 'R' then 1 else 0)
  }

  /** `itertools.product('LR', repeat = n)` with each tuple joined into a string:
      the first position varies slowest. */
  function Product(n: nat): seq<string>
  {
    if n == 0 then [""] else Prepend('L', Product(n - 1)) + Prepend('R', Product(n - 1))
  }

  function Prepend(c: char, s: seq<string>): (r: seq<string>)
    ensures |r| == |s| && forall t :: 0 <= t < |s| ==> r[t] == [c] + s[t]
  {
    seq(|s|, t requires 0 <= t < |s| => [c] + s[t])
  }

  /** A name of the depth-`d` tree: 'O' followed by at most `d` turns. */
  predicate IsTreeName(x: string, d: nat)
  {
    |x| >= 1 && x[0] == 'O' && |x| <= d + 1 && IsLR(x[1..])
  }

  /** The level of a node: the number of turns from the root. */
  function Level(x: string): nat
  {
    if |x| == 0 then 0 else |x| - 1
  }

  /** The position of a node on its level, counted from the left. */
  function Index(x: string): nat
  {
    if |x| == 0 then 0 else Value(x[1..])
  }

  lemma ValueAppend(b: string, c: char)
    ensures Value(b + [c]) == 2 * Value(b) + (if c == 'R' then 1 else 0)
  {
    assert (b + [c])[..|b|] == b;
  }

  lemma {:induction false} ValueOfBits(n: nat, i: nat)
    requires i < Pow2(n)
    ensures Value(Bits(n, i)) == i
  {
    if n > 0 {
      ValueOfBits(n - 1, i / 2);
      ValueAppend(Bits(n - 1, i / 2), Bit(i));
    }
  }

  lemma {:induction false} BitsOfValue(b: string)
    requires IsLR(b)
    ensures Value(b) < Pow2(|b|) && Bits(|b|, Value(b)) == b
  {
    if |b| > 0 {
      var p := b[..|b| - 1];
      assert IsLR(p) by {
        forall t | 0 <= t < |p| ensures p[t] == 'L' || p[t] == 'R' {
          assert p[t] == b[t];
        }
      }
      BitsOfValue(p);
      assert b == p + [b[|b| - 1]];
    }
  }

  /** Binary strings of different numbers below 2^n differ. */
  lemma BitsInjective(n: nat, i: nat, j: nat)
    requires i < Pow2(n) && j < Pow2(n) && Bits(n, i) == Bits(n, j)
    ensures i == j
  {
    ValueOfBits(n, i);
    ValueOfBits(n, j);
  }

  lemma NameInjective(n: nat, i: nat, m: nat, j: nat)
    requires i < Pow2(n) && j < Pow2(m) && Name(n, i) == Name(m, j)
    ensures n == m && i == j
  {
    assert Bits(n, i) == Name(n, i)[1..];
    assert Bits(m, j) == Name(m, j)[1..];
    BitsInjective(n, i, j);
  }

  /** Name(n, i) is the tree name on level n at index i. */
  lemma NameFacts(n: nat, i: nat, d: nat)
    requires n <= d && i < Pow2(n)
    ensures IsTreeName(Name(n, i), d) && Level(Name(n, i)) == n && Index(Name(n, i)) == i
  {
    assert Name(n, i)[1..] == Bits(n, i);
    ValueOfBits(n, i);
  }

  /** Every tree name is Name(level, index). */
  lemma TreeNameIsName(x: string, d: nat)
    requires IsTreeName(x, d)
    ensures Index(x) < Pow2(Level(x)) && x == Name(Level(x), Index(x))
  {
    BitsOfValue(x[1..]);
    assert x == "O" + x[1..];
  }

  /** The parent of a node below the root is the tree name one level up, at half the index. */
  lemma ParentFacts(x: string, d: nat)
    requires IsTreeName(x, d) && |x| >= 2
    ensures IsTreeName(Prefix(x), d) && Level(Prefix(x)) == Level(x) - 1
    ensures Index(Prefix(x)) == Index(x) / 2
    ensures x == Prefix(x) + [Bit(Index(x))]
  {
    var b := x[1..];
    var p := Prefix(x);
    assert p[1..] == b[..|b| - 1];
    assert IsLR(p[1..]) by {
      forall t | 0 <= t < |p[1..]| ensures p[1..][t] == 'L' || p[1..][t] == 'R' {
        assert p[1..][t] == b[t];
      }
    }
    assert x == p + [x[|x| - 1]];
  }

  /** The children of a junction are the tree names one level down at twice its index (plus one for R). */
  lemma ChildFacts(x: string, d: nat)
    requires IsTreeName(x, d) && Level(x) < d
    ensures IsTreeName(x + "L", d) && IsTreeName(x + "R", d)
    ensures Level(x + "L") == Level(x) + 1 && Level(x + "R") == Level(x) + 1
    ensures Index(x + "L") == 2 * Index(x) && Index(x + "R") == 2 * Index(x) + 1
    ensures Prefix(x + "L") == x && Prefix(x + "R") == x
  {
    assert (x + "L")[1..] == x[1..] + "L";
    assert (x + "R")[1..] == x[1..] + "R";
    ValueAppend(x[1..], 'L');
    ValueAppend(x[1..], 'R');
    assert IsLR(x[1..] + "L") by {
      forall t | 0 <= t < |x[1..] + "L"| ensures (x[1..] + "L")[t] == 'L' || (x[1..] + "L")[t] == 'R' {
        if t < |x[1..]| { assert (x[1..] + "L")[t] == x[1..][t]; }
      }
    }
    assert IsLR(x[1..] + "R") by {
      forall t | 0 <= t < |x[1..] + "R"| ensures (x[1..] + "R")[t] == 'L' || (x[1..] + "R")[t] == 'R' {
        if t < |x[1..]| { assert (x[1..] + "R")[t] == x[1..][t]; }
      }
    }
    assert (x + "L")[..|x|] == x;
    assert (x + "R")[..|x|] == x;
  }

  /** The two children of node (n, i) and their shared prefix, which is the node itself. */
  lemma NameStep(n: nat, i: nat)
    ensures Name(n + 1, 2 * i) == Name(n, i) + "L" && Name(n + 1, 2 * i + 1) == Name(n, i) + "R"
    ensures Prefix(Name(n + 1, 2 * i)) == Name(n, i) && Prefix(Name(n + 1, 2 * i + 1)) == Name(n, i)
  {
    assert (2 * i) / 2 == i && (2 * i + 1) / 2 == i;
    assert Bit(2 * i) == 'L' && Bit(2 * i + 1) == 'R';
    assert (Name(n, i) + "L")[..|Name(n, i)|] == Name(n, i);
    assert (Name(n, i) + "R")[..|Name(n, i)|] == Name(n, i);
  }

  /** The even-indexed node j of level k and the node after it are the L and R children
      of node j / 2 one level up. */
  lemma PairPrefix(k: nat, j: nat)
    requires 1 <= k && j % 2 == 0
    ensures Prefix(Name(k, j)) == Name(k - 1, j / 2) && Prefix(Name(k, j + 1)) == Name(k - 1, j / 2)
  {
    PairPrefixL(k, j);
    PairPrefixR(k, j);
  }

  lemma PairPrefixL(k: nat, j: nat)
    requires 1 <= k && j % 2 == 0
    ensures Prefix(Name(k, j)) == Name(k - 1, j / 2)
  {
    var i := j / 2;
    assert j == 2 * i;
    NameStep(k - 1, i);
  }

  lemma PairPrefixR(k: nat, j: nat)
    requires 1 <= k && j % 2 == 0
    ensures Prefix(Name(k, j + 1)) == Name(k - 1, j / 2)
  {
    var i := j / 2;
    assert j + 1 == 2 * i + 1;
    NameStep(k - 1, i);
  }

  lemma PairDistinct(k: nat, j: nat)
    requires 1 <= k && j % 2 == 0
    ensures Name(k, j) != Name(k, j + 1)
  {
    var i := j / 2;
    assert j == 2 * i && j + 1 == 2 * i + 1;
    NameStep(k - 1, i);
    assert Name(k, j)[k] == 'L' && Name(k, j + 1)[k] == 'R';
  }

  /** Binary forms of the lower and upper halves of [0, 2^(n+1)). */
  lemma {:induction false} BitsHalves(n: nat, i: nat)
    requires i < Pow2(n)
    ensures Bits(n + 1, i) == "L" + Bits(n, i)
    ensures Bits(n + 1, Pow2(n) + i) == "R" + Bits(n, i)
  {
    if n > 0 {
      BitsHalves(n - 1, i / 2);
      assert (Pow2(n) + i) / 2 == Pow2(n - 1) + i / 2;
      assert Bit(Pow2(n) + i) == Bit(i);
    }
  }

  /** The leaf names `itertools.product` enumerates are binary counting with L = 0, R = 1. */
  lemma ProductIsBinary(n: nat)
    ensures |Product(n)| == Pow2(n)
    ensures forall i :: 0 <= i < Pow2(n) ==> Product(n)[i] == Bits(n, i)
  {
    ProductLength(n);
    forall i | 0 <= i < Pow2(n) ensures Product(n)[i] == Bits(n, i) {
      ProductAt(n, i);
    }
  }

  lemma {:induction false} ProductLength(n: nat)
    ensures |Product(n)| == Pow2(n)
  {
    if n > 0 {
      ProductLength(n - 1);
    }
  }

  lemma {:induction false} ProductAt(n: nat, i: nat)
    requires i < Pow2(n)
    ensures |Product(n)| == Pow2(n) && Product(n)[i] == Bits(n, i)
  {
    ProductLength(n);
    if n > 0 {
      var m := n - 1;
      ProductLength(m);
      var P := Product(m);
      assert Product(n) == Prepend('L', P) + Prepend('R', P);
      if i < Pow2(m) {
        ProductAt(m, i);
        assert Product(n)[i] == Prepend('L', P)[i];
        PrependAt('L', P, m, i);
      } else {
        ProductAt(m, i - Pow2(m));
        assert Product(n)[i] == Prepend('R', P)[i - Pow2(m)];
        PrependAt('R', P, m, i - Pow2(m));
      }
    }
  }

  lemma PrependAt(c: char, P: seq<string>, m: nat, h: nat)
    requires c == 'L' || c == 'R'
    requires h < Pow2(m) && |P| == Pow2(m) && P[h] == Bits(m, h)
    ensures Prepend(c, P)[h] == Bits(m + 1, if c == 'L' then h else Pow2(m) + h)
  {
    BitsHalves(m, h);
  }
}
