/** Bytes, little-endian integers, and the sorted order of byte strings. */
module ByteOrder {
  type Byte = b: int | 0 <= b < 256

  type Bytes = seq<Byte>

  // ----- Little-endian integers

  function Pow256(width: nat): (p: nat)
    ensures p > 0
  {
    if width == 0 then 1 else 256 * Pow256(width - 1)
  }

  /** The low `width` bytes of `n`, least significant first: what a cast to a
      narrower integer keeps. */
  function LittleEndian(n: nat, width: nat): (s: Bytes)
    ensures |s| == width
  {
    if width == 0 then [] else [n % 256] + LittleEndian(n / 256, width - 1)
  }

  function FromLittleEndian(s: Bytes): nat {
    if s == [] then 0 else s[0] + 256 * FromLittleEndian(s[1..])
  }

  lemma {:induction false} LittleEndianRoundTrip(n: nat, width: nat)
    requires n < Pow256(width)
    ensures FromLittleEndian(LittleEndian(n, width)) == n
  {
    if width > 0 {
      assert n / 256 < Pow256(width - 1);
      LittleEndianRoundTrip(n / 256, width - 1);
      assert LittleEndian(n, width)[1..] == LittleEndian(n / 256, width - 1);
    }
  }

  lemma {:induction false} FromLittleEndianRoundTrip(s: Bytes)
    ensures FromLittleEndian(s) < Pow256(|s|)
    ensures LittleEndian(FromLittleEndian(s), |s|) == s
  {
    if s != [] {
      FromLittleEndianRoundTrip(s[1..]);
      assert FromLittleEndian(s) / 256 == FromLittleEndian(s[1..]) && FromLittleEndian(s) % 256 == s[0];
    }
  }

  // ----- Lexicographic order

  predicate LexLeq(a: Bytes, b: Bytes) {
    a == [] || (b != [] && (a[0] < b[0] || (a[0] == b[0] && LexLeq(a[1..], b[1..]))))
  }

  lemma {:induction false} LexTotal(a: Bytes, b: Bytes)
    ensures LexLeq(a, b) || LexLeq(b, a)
  {
    if a != [] && b != [] && a[0] == b[0] {
      LexTotal(a[1..], b[1..]);
    }
  }

  lemma {:induction false} LexAntisymmetric(a: Bytes, b: Bytes)
    requires LexLeq(a, b) && LexLeq(b, a)
    ensures a == b
  {
    if a != [] {
      LexAntisymmetric(a[1..], b[1..]);
      assert a == [a[0]] + a[1..] && b == [b[0]] + b[1..];
    }
  }

  lemma {:induction false} LexTransitive(a: Bytes, b: Bytes, c: Bytes)
    requires LexLeq(a, b) && LexLeq(b, c)
    ensures LexLeq(a, c)
  {
    if a != [] && a[0] == b[0] == c[0] {
      LexTransitive(a[1..], b[1..], c[1..]);
    }
  }

  // ----- Sorting

  predicate Ascending(s: seq<Bytes>) {
    forall i, j :: 0 <= i < j < |s| ==> LexLeq(s[i], s[j])
  }

  function InsertString(x: Bytes, s: seq<Bytes>): seq<Bytes> {
    if s == [] || LexLeq(x, s[0]) then [x] + s else [s[0]] + InsertString(x, s[1..])
  }

  function Sort(s: seq<Bytes>): seq<Bytes> {
    if s == [] then [] else InsertString(s[0], Sort(s[1..]))
  }

  lemma {:induction false} AscendingCons(x: Bytes, s: seq<Bytes>)
    requires Ascending(s) && (s != [] ==> LexLeq(x, s[0]))
    ensures Ascending([x] + s)
  {
    forall j | 0 <= j < |s| ensures LexLeq(x, s[j]) {
      if j > 0 {
        LexTransitive(x, s[0], s[j]);
      }
    }
  }

  lemma {:induction false} InsertStringSorts(x: Bytes, s: seq<Bytes>)
    requires Ascending(s)
    ensures Ascending(InsertString(x, s)) && InsertString(x, s) != []
    ensures InsertString(x, s)[0] == x || (s != [] && InsertString(x, s)[0] == s[0])
  {
    hide LexLeq;
    if s == [] || LexLeq(x, s[0]) {
      AscendingCons(x, s);
    } else {
      LexTotal(x, s[0]);
      InsertStringSorts(x, s[1..]);
      AscendingCons(s[0], InsertString(x, s[1..]));
    }
  }

  lemma {:induction false} InsertStringKeeps(x: Bytes, s: seq<Bytes>)
    ensures multiset(InsertString(x, s)) == multiset(s) + multiset{x}
  {
    hide LexLeq;
    if s != [] && !LexLeq(x, s[0]) {
      InsertStringKeeps(x, s[1..]);
      assert s == [s[0]] + s[1..];
    }
  }

  lemma {:induction false} SortSorts(s: seq<Bytes>)
    ensures Ascending(Sort(s)) && multiset(Sort(s)) == multiset(s) && |Sort(s)| == |s|
  {
    if s != [] {
      SortSorts(s[1..]);
      InsertStringSorts(s[0], Sort(s[1..]));
      InsertStringKeeps(s[0], Sort(s[1..]));
      assert s == [s[0]] + s[1..];
      assert |multiset(Sort(s))| == |multiset(s)|;
    }
  }

  lemma {:induction false} LeastFirst(s: seq<Bytes>, x: Bytes)
    requires Ascending(s) && x in s
    ensures s != [] && LexLeq(s[0], x)
  {
    LexTotal(x, x);
  }

  lemma {:induction false} TailCounts(s: seq<Bytes>)
    requires s != []
    ensures multiset(s[1..]) == multiset(s) - multiset{s[0]}
  {
    assert s == [s[0]] + s[1..];
  }

  lemma {:induction false} SameHead(a: seq<Bytes>, b: seq<Bytes>)
    requires Ascending(a) && Ascending(b) && multiset(a) == multiset(b) && a != []
    ensures b != [] && a[0] == b[0]
  {
    assert a[0] in multiset(b);
    assert b[0] in multiset(a);
    LeastFirst(a, b[0]);
    LeastFirst(b, a[0]);
    LexAntisymmetric(a[0], b[0]);
  }

  /** A multiset of strings has one sorted arrangement, whatever sorts it. */
  lemma {:induction false} SortedUnique(a: seq<Bytes>, b: seq<Bytes>)
    requires Ascending(a) && Ascending(b) && multiset(a) == multiset(b)
    ensures a == b
  {
    hide LexLeq;
    if a == [] {
      assert |multiset(b)| == |b|;
    } else {
      SameHead(a, b);
      TailCounts(a);
      TailCounts(b);
      SortedUnique(a[1..], b[1..]);
      assert a == [a[0]] + a[1..] && b == [b[0]] + b[1..];
    }
  }
}
