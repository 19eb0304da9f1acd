/** The canonical bytes that a signature covers, and the decoder they admit. */
module Canonical {
  import opened Entities
  import opened ByteOrder

  type U64 = n: nat | n < 0x1_0000_0000_0000_0000

  type Nonce = s: Bytes | |s| == 16 witness [0, 0, 0, 0, 0, 0, 0, 0, 0, 0, 0, 0, 0, 0, 0, 0]

  /** Lengths and counts are cast to 32 bits. */
  const LIMIT: nat := 0x1_0000_0000

  /** Text is held as its UTF-8 bytes. */
  datatype Payload = Payload(actionId: Bytes, permitted: bool, violations: seq<Bytes>, timestamp: U64, nonce: Nonce)

  // ----- Encoding

  function EncodeString(s: Bytes): Bytes { LittleEndian(|s|, 4) + s }

  function EncodeStrings(ss: seq<Bytes>): Bytes {
    if ss == [] then [] else EncodeString(ss[0]) + EncodeStrings(ss[1..])
  }

  function Encode(p: Payload): Bytes {
    EncodeString(p.actionId) + ([if p.permitted then 1 else 0] + (LittleEndian(p.timestamp, 8) + (p.nonce
      + (LittleEndian(|p.violations|, 4) + EncodeStrings(p.violations)))))
  }

  function Normal(p: Payload): Payload { p.(violations := Sort(p.violations)) }

  function CanonicalBytes(p: Payload): Bytes { Encode(Normal(p)) }

  method WriteString(buf: Bytes, s: Bytes) returns (buf': Bytes)
    ensures buf' == buf + EncodeString(s)
  {
    buf' := buf + LittleEndian(|s|, 4);
    buf' := buf' + s;
  }

  lemma {:induction false} EncodeStringsSnoc(ss: seq<Bytes>, s: Bytes)
    ensures EncodeStrings(ss + [s]) == EncodeStrings(ss) + EncodeString(s)
  {
    if ss == [] {
      assert [s][1..] == [];
      assert ss + [s] == [s];
    } else {
      assert (ss + [s])[1..] == ss[1..] + [s];
      EncodeStringsSnoc(ss[1..], s);
    }
  }

  /** Pushes the fields into a growing buffer. */
  method BuildCanonicalBytes(p: Payload) returns (buf: Bytes)
    ensures buf == CanonicalBytes(p)
  {
    hide EncodeString, EncodeStrings, LittleEndian, Sort;
    buf := WriteString([], p.actionId);
    buf := buf + [if p.permitted then 1 else 0];
    buf := buf + LittleEndian(p.timestamp, 8);
    buf := buf + p.nonce;
    var ordered := Sort(p.violations);
    buf := buf + LittleEndian(|ordered|, 4);
    buf := WriteStrings(buf, ordered);
  }

  method WriteStrings(buf: Bytes, ss: seq<Bytes>) returns (buf': Bytes)
    ensures buf' == buf + EncodeStrings(ss)
  {
    buf' := buf;
    for i := 0 to |ss|
      invariant buf' == buf + EncodeStrings(ss[..i])
    {
      buf' := WriteString(buf', ss[i]);
      EncodeStringsSnoc(ss[..i], ss[i]);
      assert ss[..i + 1] == ss[..i] + [ss[i]];
    }
    assert ss[..|ss|] == ss;
  }

  // ----- Decoding

  /** A value read from the front of a buffer, and what is left. */
  datatype Read<T> = Failed | Got(value: T, rest: Bytes)

  function ReadInt(s: Bytes, width: nat): Read<nat> {
    if |s| < width then Failed else Got(FromLittleEndian(s[..width]), s[width..])
  }

  function ReadBytes(s: Bytes, n: nat): (r: Read<Bytes>)
    ensures r.Got? ==> |r.value| == n && s == r.value + r.rest
  {
    if |s| < n then Failed else Got(s[..n], s[n..])
  }

  function ReadString(s: Bytes): Read<Bytes> {
    match ReadInt(s, 4)
    case Failed => Failed
    case Got(n, rest) => ReadBytes(rest, n)
  }

  function ReadStrings(s: Bytes, count: nat): Read<seq<Bytes>> {
    if count == 0 then Got([], s)
    else
      match ReadString(s)
      case Failed => Failed
      case Got(x, rest) =>
        match ReadStrings(rest, count - 1)
        case Failed => Failed
        case Got(xs, rest') => Got([x] + xs, rest')
  }

  /** Accepts a buffer that is used up exactly, with a permission byte of 0 or 1 and
      violations in ascending order. */
  function Decode(s: Bytes): Option<Payload> {
    match ReadString(s)
    case Failed => None
    case Got(actionId, s1) =>
      match ReadBytes(s1, 1)
      case Failed => None
      case Got(flag, s2) =>
        match ReadInt(s2, 8)
        case Failed => None
        case Got(timestamp, s3) =>
          match ReadBytes(s3, 16)
          case Failed => None
          case Got(nonce, s4) =>
            match ReadInt(s4, 4)
            case Failed => None
            case Got(count, s5) =>
              match ReadStrings(s5, count)
              case Failed => None
              case Got(violations, s6) =>
                if s6 == [] && flag[0] <= 1 && Ascending(violations) && timestamp < 0x1_0000_0000_0000_0000
                then Some(Payload(actionId, flag[0] == 1, violations, timestamp, nonce)) else None
  }

  // ----- What fits in 32-bit lengths

  predicate Fits(p: Payload) {
    |p.actionId| < LIMIT && |p.violations| < LIMIT && forall v :: v in p.violations ==> |v| < LIMIT
  }

  lemma {:induction false} Widths()
    ensures Pow256(4) == LIMIT && Pow256(8) == 0x1_0000_0000_0000_0000
  {
  }

  // ----- Decoding undoes encoding

  lemma {:induction false} ReadIntEncoded(n: nat, width: nat, rest: Bytes)
    requires n < Pow256(width)
    ensures ReadInt(LittleEndian(n, width) + rest, width) == Got(n, rest)
  {
    LittleEndianRoundTrip(n, width);
    assert (LittleEndian(n, width) + rest)[..width] == LittleEndian(n, width);
  }

  lemma {:induction false} ReadBytesEncoded(s: Bytes, rest: Bytes)
    ensures ReadBytes(s + rest, |s|) == Got(s, rest)
  {
  }

  lemma {:induction false} ReadStringEncoded(s: Bytes, rest: Bytes)
    requires |s| < LIMIT
    ensures ReadString(EncodeString(s) + rest) == Got(s, rest)
  {
    Widths();
    assert EncodeString(s) + rest == LittleEndian(|s|, 4) + (s + rest);
    ReadIntEncoded(|s|, 4, s + rest);
    ReadBytesEncoded(s, rest);
  }

  lemma {:induction false} ReadStringsEncoded(ss: seq<Bytes>)
    requires forall s :: s in ss ==> |s| < LIMIT
    ensures ReadStrings(EncodeStrings(ss), |ss|) == Got(ss, [])
  {
    if ss != [] {
      ReadStringEncoded(ss[0], EncodeStrings(ss[1..]));
      ReadStringsEncoded(ss[1..]);
      assert [ss[0]] + ss[1..] == ss;
    }
  }

  lemma {:induction false} DecodeEncoded(p: Payload)
    requires Fits(p) && Ascending(p.violations)
    ensures Decode(Encode(p)) == Some(p)
  {
    Widths();
    var s5 := EncodeStrings(p.violations);
    var s4 := LittleEndian(|p.violations|, 4) + s5;
    var s3 := p.nonce + s4;
    var s2 := LittleEndian(p.timestamp, 8) + s3;
    var flag: Bytes := [if p.permitted then 1 else 0];
    ReadStringEncoded(p.actionId, flag + s2);
    ReadBytesEncoded(flag, s2);
    ReadIntEncoded(p.timestamp, 8, s3);
    ReadBytesEncoded(p.nonce, s4);
    ReadIntEncoded(|p.violations|, 4, s5);
    ReadStringsEncoded(p.violations);
  }

  // ----- Encoding undoes decoding

  lemma {:induction false} ReadIntSound(s: Bytes, width: nat)
    requires ReadInt(s, width).Got?
    ensures var r := ReadInt(s, width); r.value < Pow256(width) && s == LittleEndian(r.value, width) + r.rest
  {
    FromLittleEndianRoundTrip(s[..width]);
    assert s == s[..width] + s[width..];
  }

  lemma {:induction false} ReadStringSound(s: Bytes)
    requires ReadString(s).Got?
    ensures var r := ReadString(s); |r.value| < LIMIT && s == EncodeString(r.value) + r.rest
  {
    Widths();
    ReadIntSound(s, 4);
    var r := ReadInt(s, 4);
    var v := ReadBytes(r.rest, r.value);
    assert LittleEndian(r.value, 4) + (v.value + v.rest) == (LittleEndian(r.value, 4) + v.value) + v.rest;
  }

  lemma {:induction false} ReadStringsSound(s: Bytes, count: nat)
    requires ReadStrings(s, count).Got?
    ensures var r := ReadStrings(s, count);
      |r.value| == count && (forall v :: v in r.value ==> |v| < LIMIT) && s == EncodeStrings(r.value) + r.rest
    decreases count
  {
    if count > 0 {
      ReadStringSound(s);
      var first := ReadString(s);
      ReadStringsSound(first.rest, count - 1);
      var others := ReadStrings(first.rest, count - 1);
      assert ([first.value] + others.value)[1..] == others.value;
      assert s == EncodeString(first.value) + (EncodeStrings(others.value) + others.rest)
               == (EncodeString(first.value) + EncodeStrings(others.value)) + others.rest;
    }
  }

  lemma {:induction false} DecodeSound(s: Bytes)
    requires Decode(s).Some?
    ensures Encode(Decode(s).value) == s && Fits(Decode(s).value) && Ascending(Decode(s).value.violations)
  {
    Widths();
    var p := Decode(s).value;
    ReadStringSound(s);
    var s1 := ReadString(s).rest;
    var flag, s2 := ReadBytes(s1, 1).value, ReadBytes(s1, 1).rest;
    assert flag == [if p.permitted then 1 else 0];
    ReadIntSound(s2, 8);
    var s3 := ReadInt(s2, 8).rest;
    var s4 := ReadBytes(s3, 16).rest;
    ReadIntSound(s4, 4);
    var s5 := ReadInt(s4, 4).rest;
    ReadStringsSound(s5, ReadInt(s4, 4).value);
    assert s5 == EncodeStrings(p.violations) + [] == EncodeStrings(p.violations);
  }

  // ----- The canonical bytes determine the payload

  lemma {:induction false} NormalFits(p: Payload)
    ensures Fits(Normal(p)) <==> Fits(p)
    ensures Ascending(Normal(p).violations)
  {
    SortSorts(p.violations);
    forall v ensures v in Sort(p.violations) <==> v in p.violations {
      assert v in multiset(Sort(p.violations)) <==> v in multiset(p.violations);
    }
  }

  /** Main theorem: the decoder recovers the fields and the sorted violations
      exactly when every length and count is below 2^32. */
  lemma {:induction false} DecodesIffFits(p: Payload)
    ensures Decode(CanonicalBytes(p)) == Some(Normal(p)) <==> Fits(p)
  {
    NormalFits(p);
    if Fits(p) {
      DecodeEncoded(Normal(p));
    }
    if Decode(CanonicalBytes(p)) == Some(Normal(p)) {
      DecodeSound(CanonicalBytes(p));
    }
  }

  /** A buffer decodes exactly when it is the canonical form of some fitting payload. */
  lemma {:induction false} DecodesIffCanonical(s: Bytes)
    ensures Decode(s).Some? <==> exists p :: Fits(p) && CanonicalBytes(p) == s
  {
    if Decode(s).Some? {
      DecodeSound(s);
      var p := Decode(s).value;
      NormalFits(p);
      SortSorts(p.violations);
      SortedUnique(Sort(p.violations), p.violations);
      assert Normal(p) == p;
      assert Fits(p) && CanonicalBytes(p) == s;
    }
    forall p | Fits(p) && CanonicalBytes(p) == s ensures Decode(s).Some? {
      DecodesIffFits(p);
    }
  }

  /** The same payload up to the order of the violations. */
  predicate SamePayload(p: Payload, q: Payload) {
    && p.actionId == q.actionId && p.permitted == q.permitted && p.timestamp == q.timestamp && p.nonce == q.nonce
    && multiset(p.violations) == multiset(q.violations)
  }

  lemma {:induction false} NormalEqualIff(p: Payload, q: Payload)
    ensures Normal(p) == Normal(q) <==> SamePayload(p, q)
  {
    SortSorts(p.violations);
    SortSorts(q.violations);
    if SamePayload(p, q) {
      SortedUnique(Sort(p.violations), Sort(q.violations));
    }
  }

  /** Two fitting payloads have the same bytes exactly when they are the same up to
      the order of their violations. */
  lemma {:induction false} CanonicalBytesInjective(p: Payload, q: Payload)
    requires Fits(p) && Fits(q)
    ensures CanonicalBytes(p) == CanonicalBytes(q) <==> SamePayload(p, q)
  {
    DecodesIffFits(p);
    DecodesIffFits(q);
    NormalEqualIff(p, q);
  }

  // ----- Where each field lies

  /** The layout of the signed bytes: the length and the text of the id, one byte for
      the permission, eight for the timestamp, sixteen for the nonce, four for the
      number of violations, and the violations in ascending order. */
  lemma {:induction false} Layout(p: Payload)
    ensures var b, n := CanonicalBytes(p), |p.actionId|;
      && |b| >= n + 33
      && b[..4] == LittleEndian(n, 4)
      && b[4..n + 4] == p.actionId
      && b[n + 4] == (if p.permitted then 1 else 0)
      && b[n + 5..n + 13] == LittleEndian(p.timestamp, 8)
      && b[n + 13..n + 29] == p.nonce
      && b[n + 29..n + 33] == LittleEndian(|p.violations|, 4)
      && b[n + 33..] == EncodeStrings(Normal(p).violations)
      && Ascending(Normal(p).violations) && multiset(Normal(p).violations) == multiset(p.violations)
  {
    SortSorts(p.violations);
    InARow(p);
    hide Sort, LittleEndian, EncodeStrings, CanonicalBytes;
  }

  lemma {:induction false} InARow(p: Payload)
    ensures CanonicalBytes(p) ==
            LittleEndian(|p.actionId|, 4) + p.actionId + [if p.permitted then 1 else 0] + LittleEndian(p.timestamp, 8) + p.nonce
            + LittleEndian(|p.violations|, 4) + EncodeStrings(Normal(p).violations)
  {
    SortSorts(p.violations);
    hide Sort, LittleEndian, EncodeStrings;
  }

  lemma {:induction false} ExampleStrings()
    ensures EncodeStrings([[66, 66], [67]]) == [2, 0, 0, 0] + [66, 66] + [1, 0, 0, 0] + [67]
  {
    var c: Bytes, bb: Bytes := [67], [66, 66];
    var one: seq<Bytes> := [c];
    assert [bb, c][1..] == one && one[1..] == [];
    ExampleIntegers();
    hide LittleEndian;
    assert EncodeStrings(one) == EncodeString(c) + [] == [1, 0, 0, 0] + [67];
    assert EncodeString(bb) == [2, 0, 0, 0] + [66, 66];
    assert EncodeStrings([bb, c]) == EncodeString(bb) + EncodeStrings(one);
  }

  /** A complete example: id "A", permitted, timestamp 258, violations "C" and "BB". */
  lemma {:induction false} ExampleBytes(nonce: Nonce)
    ensures CanonicalBytes(Payload([65], true, [[67], [66, 66]], 258, nonce)) ==
            [1, 0, 0, 0] + [65] + [1] + [2, 1, 0, 0, 0, 0, 0, 0] + nonce + [2, 0, 0, 0]
            + ([2, 0, 0, 0] + [66, 66] + [1, 0, 0, 0] + [67])
  {
    InARow(Payload([65], true, [[67], [66, 66]], 258, nonce));
    ExampleSorted();
    ExampleIntegers();
    ExampleStrings();
    hide LittleEndian, Sort, EncodeStrings, CanonicalBytes;
  }

  lemma {:induction false} ExampleSorted()
    ensures Sort([[67], [66, 66]]) == [[66, 66], [67]]
  {
    var c: Bytes, bb: Bytes := [67], [66, 66];
    var one: seq<Bytes> := [bb];
    assert [c, bb][1..] == one && one[1..] == [];
    assert Sort(one) == InsertString(bb, Sort(one[1..])) == one;
    assert !LexLeq(c, bb);
    assert InsertString(c, one) == [bb] + InsertString(c, one[1..]);
    assert Sort([c, bb]) == InsertString(c, one);
  }

  lemma {:induction false} ExampleIntegers()
    ensures LittleEndian(1, 4) == [1, 0, 0, 0] && LittleEndian(2, 4) == [2, 0, 0, 0]
    ensures LittleEndian(258, 8) == [2, 1, 0, 0, 0, 0, 0, 0]
  {
  }

  // ----- Without a bound on the lengths

  /** The strings of the two payloads are equally long, place by place once sorted. */
  predicate SameLengths(p: Payload, q: Payload) {
    |p.actionId| == |q.actionId| && AlignedStrings(Sort(p.violations), Sort(q.violations))
  }

  predicate AlignedStrings(a: seq<Bytes>, b: seq<Bytes>) {
    |a| == |b| && forall i :: 0 <= i < |a| ==> |a[i]| == |b[i]|
  }

  lemma {:induction false} PeelEqual(a: Bytes, x: Bytes, b: Bytes, y: Bytes)
    requires |a| == |b| && a + x == b + y
    ensures a == b && x == y
  {
    assert a == (a + x)[..|a|] && x == (a + x)[|a|..];
    assert b == (b + y)[..|b|] && y == (b + y)[|b|..];
  }

  lemma {:induction false} PeelString(a: Bytes, x: Bytes, b: Bytes, y: Bytes)
    requires |a| == |b| && EncodeString(a) + x == EncodeString(b) + y
    ensures a == b && x == y
  {
    PeelEqual(EncodeString(a), x, EncodeString(b), y);
    PeelEqual(LittleEndian(|a|, 4), a, LittleEndian(|b|, 4), b);
  }

  lemma {:induction false} PeelStrings(a: seq<Bytes>, b: seq<Bytes>)
    requires AlignedStrings(a, b) && EncodeStrings(a) == EncodeStrings(b)
    ensures a == b
  {
    if a != [] {
      PeelString(a[0], EncodeStrings(a[1..]), b[0], EncodeStrings(b[1..]));
      PeelStrings(a[1..], b[1..]);
      assert a == [a[0]] + a[1..] && b == [b[0]] + b[1..];
    }
  }

  lemma {:induction false} PeelPayload(p: Payload, q: Payload)
    requires Encode(p) == Encode(q) && |p.actionId| == |q.actionId| && AlignedStrings(p.violations, q.violations)
    ensures p == q
  {
    var s4, t4 := LittleEndian(|p.violations|, 4) + EncodeStrings(p.violations), LittleEndian(|q.violations|, 4) + EncodeStrings(q.violations);
    var s3, t3 := p.nonce + s4, q.nonce + t4;
    var s2, t2 := LittleEndian(p.timestamp, 8) + s3, LittleEndian(q.timestamp, 8) + t3;
    var f: Bytes, g: Bytes := [if p.permitted then 1 else 0], [if q.permitted then 1 else 0];
    hide EncodeString, EncodeStrings, LittleEndian;
    PeelString(p.actionId, f + s2, q.actionId, g + t2);
    PeelEqual(f, s2, g, t2);
    PeelEqual(LittleEndian(p.timestamp, 8), s3, LittleEndian(q.timestamp, 8), t3);
    PeelEqual(p.nonce, s4, q.nonce, t4);
    PeelEqual(LittleEndian(|p.violations|, 4), EncodeStrings(p.violations), LittleEndian(|q.violations|, 4), EncodeStrings(q.violations));
    PeelStrings(p.violations, q.violations);
    Widths();
    LittleEndianRoundTrip(p.timestamp, 8);
    LittleEndianRoundTrip(q.timestamp, 8);
    assert f[0] == g[0];
  }

  /** For all payloads, of any size: equal bytes with strings of equal lengths mean
      the same payload up to the order of the violations, and conversely. */
  lemma {:induction false} EqualBytesIff(p: Payload, q: Payload)
    ensures CanonicalBytes(p) == CanonicalBytes(q) && SameLengths(p, q) <==> SamePayload(p, q)
  {
    hide Encode, Sort;
    NormalEqualIff(p, q);
    if CanonicalBytes(p) == CanonicalBytes(q) && SameLengths(p, q) {
      PeelPayload(Normal(p), Normal(q));
    }
    if SamePayload(p, q) {
      assert Normal(p).violations == Sort(p.violations) && Normal(q).violations == Sort(q.violations);
    }
  }

  // ----- Beyond 32-bit lengths

  function Zeros(n: nat): (s: Bytes)
    ensures |s| == n && forall i :: 0 <= i < n ==> s[i] == 0
  {
    seq(n, _ => 0)
  }

  lemma {:induction false} SmallIntegers()
    ensures LittleEndian(LIMIT, 4) == LittleEndian(0, 4) == Zeros(4)
    ensures LittleEndian(0, 8) == Zeros(8)
    ensures LittleEndian(1, 4) == [1] + Zeros(3)
  {
  }

  function LongId(): Payload {
    Payload(Zeros(25) + [1] + Zeros(LIMIT - 26), false, [[]], 0, Zeros(16))
  }

  function LongViolation(): Payload {
    Payload([], false, [Zeros(LIMIT - 8) + [1] + Zeros(7)], 0, Zeros(16))
  }

  /** Past the limit the lengths wrap around and the bytes no longer tell payloads
      apart: an action id of 2^32 bytes and a violation of 2^32 bytes collide. */
  lemma {:induction false} WrappedLengthsCollide()
    ensures CanonicalBytes(LongId()) == CanonicalBytes(LongViolation())
    ensures !SamePayload(LongId(), LongViolation())
  {
    SmallIntegers();
    var p, q := LongId(), LongViolation();
    assert p.violations[1..] == [] && q.violations[1..] == [];
    assert Normal(p) == p && Normal(q) == q;
    var w := q.violations[0];
    assert |p.actionId| == LIMIT && |w| == LIMIT;
    assert EncodeStrings(p.violations) == Zeros(4);
    assert EncodeStrings(q.violations) == Zeros(4) + w;
    var common := Zeros(29) + [1] + Zeros(LIMIT - 1) + [1] + Zeros(7);
    assert Encode(p) == common;
    assert Encode(q) == common;
  }

  /** Two violations of 2^31 - 4 zero bytes: a payload that fits. */
  function TwoLongViolations(): Payload {
    Payload([], false, [Zeros(0x7FFF_FFFC), Zeros(0x7FFF_FFFC)], 0, Zeros(16))
  }

  /** The bytes of that payload between the length of its id and its last 29 bytes. */
  function Swallowed(): Bytes {
    var v := Zeros(0x7FFF_FFFC);
    [0] + Zeros(8) + Zeros(16) + LittleEndian(2, 4) + EncodeString(v) + LittleEndian(|v|, 4) + Zeros(0x7FFF_FFDF)
  }

  lemma {:induction false} SortedPair(v: Bytes)
    ensures Sort([v, v]) == [v, v]
  {
    LexTotal(v, v);
    var one: seq<Bytes> := [v];
    assert [v, v][1..] == one && one[1..] == [];
    assert Sort(one) == InsertString(v, Sort(one[1..])) == one;
    assert Sort([v, v]) == InsertString(v, one) == [v] + one;
  }

  lemma {:induction false} TwoLongBytes()
    ensures |Swallowed()| == LIMIT
    ensures CanonicalBytes(TwoLongViolations()) == Zeros(4) + (Swallowed() + Zeros(29))
  {
    hide LittleEndian, Sort;
    SmallIntegers();
    var p, v := TwoLongViolations(), Zeros(0x7FFF_FFFC);
    SortedPair(v);
    assert Normal(p) == p;
    var one: seq<Bytes> := [v];
    assert p.violations[1..] == one && one[1..] == [];
    assert v == Zeros(0x7FFF_FFDF) + Zeros(29);
    assert EncodeStrings(one) == EncodeString(v) + [] == LittleEndian(|v|, 4) + Zeros(0x7FFF_FFDF) + Zeros(29);
    assert EncodeStrings(p.violations) == EncodeString(v) + (LittleEndian(|v|, 4) + Zeros(0x7FFF_FFDF) + Zeros(29));
    assert EncodeString([]) == Zeros(4);
    hide EncodeString, EncodeStrings, Zeros;
    assert Encode(p) == Zeros(4) + (Swallowed() + Zeros(29));
  }

  /** A payload that fits can have the bytes of one that does not: the id of the
      other swallows its fields. */
  lemma {:induction false} FittingCollides()
    ensures var p, q := TwoLongViolations(), Payload(Swallowed(), false, [], 0, Zeros(16));
      Fits(p) && !Fits(q) && CanonicalBytes(p) == CanonicalBytes(q) && !SamePayload(p, q)
  {
    var p, q := TwoLongViolations(), Payload(Swallowed(), false, [], 0, Zeros(16));
    hide LittleEndian, Swallowed, Sort;
    SmallIntegers();
    TwoLongBytes();
    SortSorts(q.violations);
    assert Normal(q) == q;
    assert EncodeString(q.actionId) == Zeros(4) + Swallowed();
    hide Zeros;
    assert EncodeStrings(q.violations) == [];
    ZeroTail();
    assert Encode(q) == Zeros(4) + (Swallowed() + Zeros(29));
  }

  lemma {:induction false} ZeroTail()
    ensures [0] + (Zeros(8) + (Zeros(16) + (Zeros(4) + []))) == Zeros(29)
  {
  }

  // ----- Signatures over the canonical bytes

  datatype Checked = Answer(valid: bool) | BadNonceHex | BadNonceLength | BadSignatureHex | BadSignatureLength

  /** `sign` is the deterministic signature of section 5.1.6 of RFC 8032 under the
      process key; the hex arguments arrive decoded, or as None when malformed. */
  function VerifySignature(sign: Bytes -> Bytes, actionId: Bytes, permitted: bool, violations: seq<Bytes>, timestamp: U64,
                           nonce: Option<Bytes>, signature: Option<Bytes>): Checked
  {
    if nonce.None? then BadNonceHex
    else if |nonce.value| != 16 then BadNonceLength
    else if signature.None? then BadSignatureHex
    else if |signature.value| != 64 then BadSignatureLength
    else Answer(sign(CanonicalBytes(Payload(actionId, permitted, violations, timestamp, nonce.value))) == signature.value)
  }

  /** Unless the two byte strings sign alike, a signature made for `p` checks out for
      `q` exactly when their bytes are equal.  Among payloads that fit, or whose
      strings are equally long, that is exactly when they are the same payload up to
      the order of the violations. */
  lemma {:induction false} SignatureBindsPayload(sign: Bytes -> Bytes, p: Payload, q: Payload)
    requires |sign(CanonicalBytes(p))| == 64
    requires sign(CanonicalBytes(p)) == sign(CanonicalBytes(q)) ==> CanonicalBytes(p) == CanonicalBytes(q)
    ensures var r := VerifySignature(sign, q.actionId, q.permitted, q.violations, q.timestamp, Some(q.nonce), Some(sign(CanonicalBytes(p))));
      && r == Answer(CanonicalBytes(p) == CanonicalBytes(q))
      && (r.valid && SameLengths(p, q) <==> SamePayload(p, q))
      && (Fits(p) && Fits(q) ==> (r.valid <==> SamePayload(p, q)))
  {
    hide Encode, Sort;
    EqualBytesIff(p, q);
    if Fits(p) && Fits(q) {
      CanonicalBytesInjective(p, q);
    }
    assert Payload(q.actionId, q.permitted, q.violations, q.timestamp, q.nonce) == q;
  }
  /** Every answer of the check, for all arguments: the error of the first malformed
      argument, in the order nonce text, nonce length, signature text, signature
      length; and otherwise whether the signature is that of the payload. */
  lemma {:induction false} SignatureCheckMeaning(sign: Bytes -> Bytes, actionId: Bytes, permitted: bool, violations: seq<Bytes>,
                                                 timestamp: U64, nonce: Option<Bytes>, signature: Option<Bytes>)
    ensures var r := VerifySignature(sign, actionId, permitted, violations, timestamp, nonce, signature);
      && (r == BadNonceHex <==> nonce == None)
      && (r == BadNonceLength <==> nonce.Some? && |nonce.value| != 16)
      && (r == BadSignatureHex <==> nonce.Some? && |nonce.value| == 16 && signature == None)
      && (r == BadSignatureLength <==> nonce.Some? && |nonce.value| == 16 && signature.Some? && |signature.value| != 64)
      && (r.Answer? <==> nonce.Some? && |nonce.value| == 16 && signature.Some? && |signature.value| == 64)
      && (r == Answer(true) <==>
            && nonce.Some? && |nonce.value| == 16 && signature.Some? && |signature.value| == 64
            && signature.value == sign(CanonicalBytes(Payload(actionId, permitted, violations, timestamp, nonce.value))))
  {
    hide CanonicalBytes;
  }
}
