/** The filter over a set of elements: built once, then asked for membership. */
module GcsFilter {
  import opened Basics
  import opened Limbs
  import opened BitStream
  import opened Gcs

  type Element = seq<bv8>

  /** `hash` is the keyed 64-bit hash of the filter. */
  datatype Params = Params(P: nat, M: nat, hash: Element -> nat)

  datatype Filter = Filter(params: Params, N: nat, F: nat, encoded: seq<Byte>)

  ghost predicate Sane(p: Params) { p.P < 64 && p.M < BASE }

  /** An element's place in the range of the filter. */
  function HashToRange(p: Params, F: nat, e: Element): nat { Times(p.hash(e) % WORD, F) / WORD }

  ghost predicate Sorted(xs: seq<nat>) { forall i, j :: 0 <= i < j < |xs| ==> xs[i] <= xs[j] }

  /** Exactly the places of these elements. */
  ghost predicate HashesOf(p: Params, F: nat, elements: seq<Element>, hs: seq<nat>) {
    && (forall k :: 0 <= k < |elements| ==> HashToRange(p, F, elements[k]) in hs)
    && (forall v :: v in hs ==> exists k :: 0 <= k < |elements| && HashToRange(p, F, elements[k]) == v)
  }

  // ------------------------------------------------------------------
  // Building
  // ------------------------------------------------------------------

  method InsertSorted(xs: seq<nat>, x: nat) returns (ys: seq<nat>)
    requires Sorted(xs)
    ensures Sorted(ys) && |ys| == |xs| + 1 && forall v :: v in ys <==> v in xs || v == x
  {
    hide Sorted;
    var i := 0;
    while i < |xs| && xs[i] < x
      invariant 0 <= i <= |xs| && forall k :: 0 <= k < i ==> xs[k] < x
    {
      i := i + 1;
    }
    ys := xs[..i] + [x] + xs[i..];
    Spliced(xs, i, x);
    SplicedSorted(xs, i, x);
  }

  lemma Spliced(xs: seq<nat>, i: nat, x: nat)
    requires i <= |xs|
    ensures forall v :: v in xs[..i] + [x] + xs[i..] <==> v in xs || v == x
  {
    assert xs == xs[..i] + xs[i..];
  }

  lemma SplicedSorted(xs: seq<nat>, i: nat, x: nat)
    requires Sorted(xs) && i <= |xs| && (forall k :: 0 <= k < i ==> xs[k] < x) && (i < |xs| ==> x <= xs[i])
    ensures Sorted(xs[..i] + [x] + xs[i..])
  {
    var ys := xs[..i] + [x] + xs[i..];
    forall j, k | 0 <= j < k < |ys| ensures ys[j] <= ys[k] {
      assert forall m :: i < m < |ys| ==> ys[m] == xs[m - 1];
    }
  }

  method HashElement(p: Params, F: nat, e: Element) returns (v: nat)
    requires F < WORD
    ensures v == HashToRange(p, F, e) && v < WORD
  {
    RangeBound(p.hash(e) % WORD, F);
    v := MapIntoRange(p.hash(e) % WORD, F);
  }

  method BuildHashedSet(p: Params, F: nat, elements: seq<Element>) returns (hs: seq<nat>)
    requires F < WORD
    ensures Sorted(hs) && |hs| == |elements| && HashesOf(p, F, elements, hs)
    ensures forall v :: v in hs ==> v < WORD
  {
    hide HashToRange;
    hs := [];
    for n := 0 to |elements|
      invariant Sorted(hs) && |hs| == n && (forall v :: v in hs ==> v < WORD)
      invariant forall k :: 0 <= k < n ==> HashToRange(p, F, elements[k]) in hs
      invariant forall v :: v in hs ==> exists k :: 0 <= k < n && HashToRange(p, F, elements[k]) == v
    {
      var v := HashElement(p, F, elements[n]);
      hs := InsertSorted(hs, v);
    }
  }

  function Previous(vs: seq<nat>, i: nat): nat
    requires i <= |vs|
  {
    if i == 0 then 0 else vs[i - 1]
  }

  /** The codes of the differences from value `i` on. */
  ghost function Codes(P: nat, vs: seq<nat>, i: nat): seq<bool>
    requires Sorted(vs) && i <= |vs|
    decreases |vs| - i
  {
    if i == |vs| then [] else Golomb(P, vs[i] - Previous(vs, i)) + Codes(P, vs, i + 1)
  }

  /** The codes of the differences up to value `n`. */
  ghost function CodesTo(P: nat, vs: seq<nat>, n: nat): seq<bool>
    requires Sorted(vs) && n <= |vs|
  {
    if n == 0 then [] else CodesTo(P, vs, n - 1) + Golomb(P, vs[n - 1] - Previous(vs, n - 1))
  }

  lemma {:induction false} CodesMeet(P: nat, vs: seq<nat>, n: nat)
    requires Sorted(vs) && n <= |vs|
    ensures CodesTo(P, vs, n) + Codes(P, vs, n) == Codes(P, vs, 0)
  {
    hide Golomb;
    if n > 0 {
      CodesMeet(P, vs, n - 1);
      AppendAssoc(CodesTo(P, vs, n - 1), Golomb(P, vs[n - 1] - Previous(vs, n - 1)), Codes(P, vs, n));
    }
  }

  /** The filter stores these values: their number, their differences, and padding to the next byte. */
  ghost predicate Encodes(f: Filter, vs: seq<nat>) {
    && f.params.P < 64 && f.N == |vs| < BASE && Sorted(vs) && (forall v :: v in vs ==> v < WORD)
    && CompactSize(f.N) <= f.encoded
    && var bits, code := From(f.encoded, |CompactSize(f.N)|), Codes(f.params.P, vs, 0);
    && code <= bits && |bits| < |code| + 8
  }

  ghost predicate BuiltFrom(f: Filter, elements: seq<Element>, vs: seq<nat>) {
    Encodes(f, vs) && HashesOf(f.params, f.F, elements, vs)
  }

  lemma {:induction false} FromDrop(bytes: seq<Byte>, i: nat, h: nat)
    requires i <= h <= |bytes|
    ensures From(bytes, i)[8 * (h - i)..] == From(bytes, h)
    decreases h - i
  {
    if i < h {
      FromDrop(bytes, i + 1, h);
    }
  }

  /** The filter of a set; none when it has 2^32 elements or more. */
  method Build(p: Params, elements: seq<Element>) returns (r: Option<Filter>, ghost vs: seq<nat>)
    requires Sane(p)
    ensures r == None <==> |elements| >= BASE
    ensures r.Some? ==>
              var f := r.value;
              f.params == p && f.N == |elements| && f.F == Times(|elements|, p.M) < WORD && BuiltFrom(f, elements, vs)
  {
    vs := [];
    if |elements| >= BASE {
      return None, [];
    }
    var N := |elements|;
    RangeFits(N, p.M);
    var F := Times(N, p.M);
    var header := CompactSize(N);
    var hs := BuildHashedSet(p, F, elements);
    vs := hs;
    if N == 0 {
      return Some(Filter(p, N, F, header)), vs;
    }
    var encoded := EncodeSorted(p.P, header, hs);
    return Some(Filter(p, N, F, encoded)), vs;
  }

  lemma RangeFits(n: nat, m: nat)
    requires n < BASE && m < BASE
    ensures Times(n, m) < WORD
  {
    HalfProducts(n, m);
  }

  method EncodeSorted(P: nat, header: seq<Byte>, hs: seq<nat>) returns (encoded: seq<Byte>)
    requires P < 64 && Sorted(hs)
    ensures header <= encoded
    ensures var bits, code := From(encoded, |header|), Codes(P, hs, 0);
            code <= bits && |bits| < |code| + 8
  {
    hide From, Golomb, Filled;
    var w := new BitWriter(header);
    ghost var head := From(header, 0);
    var last := 0;
    assert head + [] == head;
    for i := 0 to |hs|
      invariant w.Valid() && header <= w.out && last == Previous(hs, i)
      invariant w.Bits() == head + CodesTo(P, hs, i)
    {
      ghost var before := CodesTo(P, hs, i);
      GolombRiceEncode(w, P, hs[i] - last);
      AppendAssoc(head, before, Golomb(P, hs[i] - last));
      last := hs[i];
    }
    ghost var all := w.Bits();
    CodesMeet(P, hs, |hs|);
    assert CodesTo(P, hs, |hs|) + [] == CodesTo(P, hs, |hs|);
    w.Flush();
    encoded := w.out;
    FromDrop(encoded, 0, |header|);
    AfterHead(From(encoded, 0), head, Codes(P, hs, 0), |header|);
  }

  lemma AfterHead(bits: seq<bool>, head: seq<bool>, code: seq<bool>, n: nat)
    requires |head| == 8 * n && |head + code| <= |bits| < |head + code| + 8 && bits[..|head + code|] == head + code
    ensures code <= bits[8 * n..] && |bits[8 * n..]| < |code| + 8
  {
    assert bits[8 * n..][..|code|] == bits[..|head + code|][8 * n..];
  }

  // ------------------------------------------------------------------
  // Matching
  // ------------------------------------------------------------------

  /** The first query from `j` on that is not below `v`. */
  function Skip(hashes: seq<nat>, j: nat, v: nat): (r: nat)
    requires j <= |hashes|
    ensures j <= r <= |hashes| && (r < |hashes| ==> hashes[r] >= v) && forall k :: j <= k < r ==> hashes[k] < v
    decreases |hashes| - j
  {
    if j == |hashes| || hashes[j] >= v then j else Skip(hashes, j + 1, v)
  }

  /** Decodes `n` values and compares them with the queries from `j` on; none when the stream ends early. */
  function Scan(P: nat, bits: seq<bool>, n: nat, value: nat, hashes: seq<nat>, j: nat): Option<bool>
    requires j <= |hashes|
    decreases n
  {
    if n == 0 then Some(false)
    else
      var d := GolombDecode(P, bits);
      if d.None? then None
      else
        var v := (value + d.value.0) % WORD;
        var k := Skip(hashes, j, v);
        if k == |hashes| then Some(false)
        else if hashes[k] == v then Some(true)
        else Scan(P, bits[d.value.1..], n - 1, v, hashes, k)
  }

  function MatchBits(f: Filter, hashes: seq<nat>): Option<bool> {
    var size := ReadCompactSize(f.encoded);
    if size.None? || size.value.0 != f.N then None
    else Scan(f.params.P, From(f.encoded, size.value.1), f.N, 0, hashes, 0)
  }

  method MatchInternal(f: Filter, hashes: seq<nat>) returns (r: Option<bool>)
    requires f.params.P < 64
    ensures r == MatchBits(f, hashes)
  {
    hide From, GolombDecode, ReadCompactSize;
    var size := ReadCompactSize(f.encoded);
    if size.None? || size.value.0 != f.N {
      return None;
    }
    var reader := new BitReader(f.encoded, size.value.1);
    ghost var goal := MatchBits(f, hashes);
    var value, j, i := 0, 0, 0;
    while i < f.N
      invariant 0 <= i <= f.N && 0 <= value && 0 <= j <= |hashes| && fresh(reader) && reader.Valid()
      invariant Scan(f.params.P, reader.Rest(), f.N - i, value, hashes, j) == goal
    {
      var delta := GolombRiceDecode(reader, f.params.P);
      if delta == None {
        return None;
      }
      value := (value + delta.value) % WORD;
      var found: Option<bool>;
      found, j := Advance(hashes, j, value);
      if found.Some? {
        return found;
      }
      i := i + 1;
    }
    return Some(false);
  }

  /** The inner loop: moves on to the first query that is not below `value`, and says whether that settles the search. */
  method Advance(hashes: seq<nat>, j0: nat, value: nat) returns (found: Option<bool>, j: nat)
    requires j0 <= |hashes|
    ensures j == Skip(hashes, j0, value)
    ensures found == if j == |hashes| then Some(false) else if hashes[j] == value then Some(true) else None
  {
    j := j0;
    while true
      invariant j0 <= j <= |hashes| && Skip(hashes, j, value) == Skip(hashes, j0, value)
      decreases |hashes| - j
    {
      if j == |hashes| {
        return Some(false), j;
      } else if hashes[j] == value {
        return Some(true), j;
      } else if hashes[j] > value {
        return None, j;
      }
      j := j + 1;
    }
  }

  /** A query from `j` on equals a value from `i` on. */
  ghost predicate Shared(vs: seq<nat>, i: nat, hashes: seq<nat>, j: nat) {
    exists m, k :: i <= m < |vs| && j <= k < |hashes| && vs[m] == hashes[k]
  }

  /** Scanning the codes of sorted values with sorted queries decides exactly whether they share a number. */
  lemma {:induction false} ScanExact(P: nat, vs: seq<nat>, i: nat, bits: seq<bool>, hashes: seq<nat>, j: nat)
    requires Sorted(vs) && Sorted(hashes) && i <= |vs| && j <= |hashes| && (forall v :: v in vs ==> v < WORD)
    requires Codes(P, vs, i) <= bits
    ensures Scan(P, bits, |vs| - i, Previous(vs, i), hashes, j) == Some(Shared(vs, i, hashes, j))
    decreases |vs| - i
  {
    hide Golomb, GolombDecode, Scan, Codes, Shared, Skip;
    if i == |vs| {
      NothingLeft(P, bits, Previous(vs, i), vs, hashes, j);
    } else {
      var v: nat, delta: nat := vs[i], vs[i] - Previous(vs, i);
      assert v in vs;
      NextCode(P, vs, i, bits);
      var tail := bits[|Golomb(P, delta)|..];
      GolombRoundTrip(P, delta, tail);
      ScanNext(P, bits, |vs| - i, Previous(vs, i), hashes, j, delta, |Golomb(P, delta)|);
      var k := Skip(hashes, j, v);
      SkipLosesNothing(vs, i, hashes, j, k);
      if k < |hashes| && hashes[k] != v {
        ScanExact(P, vs, i + 1, tail, hashes, k);
      }
    }
  }

  lemma NothingLeft(P: nat, bits: seq<bool>, value: nat, vs: seq<nat>, hashes: seq<nat>, j: nat)
    requires j <= |hashes|
    ensures Scan(P, bits, 0, value, hashes, j) == Some(Shared(vs, |vs|, hashes, j))
  {
  }

  lemma ScanNext(P: nat, bits: seq<bool>, n: nat, value: nat, hashes: seq<nat>, j: nat, delta: nat, used: nat)
    requires n > 0 && j <= |hashes| && GolombDecode(P, bits) == Some((delta, used)) && value + delta < WORD
    ensures var v := value + delta;
            var k := Skip(hashes, j, v);
            Scan(P, bits, n, value, hashes, j)
              == if k == |hashes| then Some(false)
                 else if hashes[k] == v then Some(true)
                 else Scan(P, bits[used..], n - 1, v, hashes, k)
  {
    hide GolombDecode, Skip;
  }

  lemma NextCode(P: nat, vs: seq<nat>, i: nat, bits: seq<bool>)
    requires Sorted(vs) && i < |vs| && Codes(P, vs, i) <= bits
    ensures var g := Golomb(P, vs[i] - Previous(vs, i));
            |g| <= |bits| && bits == g + bits[|g|..] && Codes(P, vs, i + 1) <= bits[|g|..]
  {
    hide Golomb;
    var g, rest := Golomb(P, vs[i] - Previous(vs, i)), Codes(P, vs, i + 1);
    assert bits[..|g + rest|] == g + rest;
    assert bits[|g|..][..|rest|] == bits[..|g + rest|][|g|..];
    assert bits[..|g|] == bits[..|g + rest|][..|g|];
  }

  lemma SkipLosesNothing(vs: seq<nat>, i: nat, hashes: seq<nat>, j: nat, k: nat)
    requires Sorted(vs) && Sorted(hashes) && i < |vs| && j <= |hashes| && k == Skip(hashes, j, vs[i])
    ensures k == |hashes| ==> !Shared(vs, i, hashes, j)
    ensures k < |hashes| && hashes[k] == vs[i] ==> Shared(vs, i, hashes, j)
    ensures k < |hashes| && hashes[k] != vs[i] ==> (Shared(vs, i, hashes, j) <==> Shared(vs, i + 1, hashes, k))
  {
    forall m, n | i <= m < |vs| && j <= n < k ensures vs[m] != hashes[n] {
      assert vs[i] <= vs[m];
    }
    if k < |hashes| && hashes[k] != vs[i] {
      forall n | k <= n < |hashes| ensures vs[i] != hashes[n] {
        assert hashes[k] <= hashes[n];
      }
    }
  }

  /** On a filter that stores `vs`, matching is exact; it gives up exactly when the count is too large to read back. */
  lemma MatchExact(f: Filter, vs: seq<nat>, hashes: seq<nat>)
    requires Encodes(f, vs) && Sorted(hashes)
    ensures MatchBits(f, hashes) == if f.N <= MAX_SIZE then Some(Shared(vs, 0, hashes, 0)) else None
  {
    hide From, Golomb, GolombDecode, CompactSize, ReadCompactSize;
    var header := CompactSize(f.N);
    assert f.encoded == header + f.encoded[|header|..];
    CompactSizeRoundTrip(f.N, f.encoded[|header|..]);
    if f.N <= MAX_SIZE {
      ScanExact(f.params.P, vs, 0, From(f.encoded, |header|), hashes, 0);
    }
  }

  /** Some query and some element of the filter fall on the same place. */
  ghost predicate Collide(p: Params, F: nat, elements: seq<Element>, queries: seq<Element>) {
    exists e, q :: 0 <= e < |elements| && 0 <= q < |queries| && HashToRange(p, F, elements[e]) == HashToRange(p, F, queries[q])
  }

  lemma SharedExactly(p: Params, F: nat, elements: seq<Element>, vs: seq<nat>, queries: seq<Element>, hashes: seq<nat>)
    requires HashesOf(p, F, elements, vs) && HashesOf(p, F, queries, hashes)
    ensures Shared(vs, 0, hashes, 0) <==> Collide(p, F, elements, queries)
  {
    hide HashToRange;
    if Shared(vs, 0, hashes, 0) {
      var m, k :| 0 <= m < |vs| && 0 <= k < |hashes| && vs[m] == hashes[k];
      assert vs[m] in vs && hashes[k] in hashes;
      var e :| 0 <= e < |elements| && HashToRange(p, F, elements[e]) == vs[m];
      var q :| 0 <= q < |queries| && HashToRange(p, F, queries[q]) == hashes[k];
    }
    if Collide(p, F, elements, queries) {
      var e, q :| 0 <= e < |elements| && 0 <= q < |queries| && HashToRange(p, F, elements[e]) == HashToRange(p, F, queries[q]);
      var m :| 0 <= m < |vs| && vs[m] == HashToRange(p, F, elements[e]);
      var k :| 0 <= k < |hashes| && hashes[k] == HashToRange(p, F, queries[q]);
    }
  }

  // ------------------------------------------------------------------
  // Matching against any bytes
  // ------------------------------------------------------------------

  /** The values that a stream of `n` codes stands for, on 64 bits, up to where it ends. */
  function Values(P: nat, bits: seq<bool>, n: nat, value: nat): (vs: seq<nat>)
    ensures |vs| <= n && forall v :: v in vs ==> v < WORD
    decreases n
  {
    var d := GolombDecode(P, bits);
    if n == 0 || d.None? then []
    else
      var v := (value + d.value.0) % WORD;
      [v] + Values(P, bits[d.value.1..], n - 1, v)
  }

  /** No earlier value is greater. */
  ghost predicate Leads(vs: seq<nat>, m: nat)
    requires m < |vs|
  {
    forall l :: 0 <= l < m ==> vs[l] <= vs[m]
  }

  /** A query equals a leading value from `i` on. */
  ghost predicate Hit(vs: seq<nat>, i: nat, hashes: seq<nat>) {
    exists m :: i <= m < |vs| && Leads(vs, m) && vs[m] in hashes
  }

  /** The greatest value before `i`. */
  function Peak(vs: seq<nat>, i: nat): nat
    requires i <= |vs|
  {
    if i == 0 then 0 else if vs[i - 1] > Peak(vs, i - 1) then vs[i - 1] else Peak(vs, i - 1)
  }

  lemma {:induction false} LeadsPeak(vs: seq<nat>, i: nat, m: nat)
    requires i <= m < |vs| && Leads(vs, m)
    ensures Peak(vs, i) <= vs[m]
  {
    if i > 0 {
      LeadsPeak(vs, i - 1, m);
    }
  }

  /** The queries before `j` are below some value before `i`, and the others above all of them. */
  ghost predicate Parted(vs: seq<nat>, i: nat, hashes: seq<nat>, j: nat)
    requires i <= |vs| && j <= |hashes|
  {
    && (forall k :: 0 <= k < j ==> hashes[k] < Peak(vs, i))
    && (forall k, l :: j <= k < |hashes| && 0 <= l < i ==> hashes[k] > vs[l])
  }

  /** A leading value equals no query that is done with. */
  lemma NotBefore(vs: seq<nat>, i: nat, hashes: seq<nat>, j: nat, m: nat, k: nat)
    requires i <= m < |vs| && k < j <= |hashes| && Parted(vs, i, hashes, j) && Leads(vs, m)
    ensures hashes[k] != vs[m]
  {
    LeadsPeak(vs, i, m);
  }

  lemma NoneLeft(vs: seq<nat>, i: nat, hashes: seq<nat>, j: nat)
    requires i < |vs| && j <= |hashes| && Parted(vs, i, hashes, j) && forall k :: j <= k < |hashes| ==> hashes[k] < vs[i]
    ensures !Hit(vs, i, hashes)
  {
    forall m | i <= m < |vs| && Leads(vs, m) ensures vs[m] !in hashes {
      assert vs[i] <= vs[m];
      forall k | 0 <= k < |hashes| ensures hashes[k] != vs[m] {
        if k < j {
          NotBefore(vs, i, hashes, j, m, k);
        }
      }
    }
  }

  lemma NotThis(vs: seq<nat>, i: nat, hashes: seq<nat>, j: nat)
    requires i < |vs| && j <= |hashes| && Parted(vs, i, hashes, j) && forall k :: j <= k < |hashes| ==> hashes[k] != vs[i]
    ensures Hit(vs, i, hashes) <==> Hit(vs, i + 1, hashes)
  {
    if Leads(vs, i) {
      forall k | 0 <= k < |hashes| ensures hashes[k] != vs[i] {
        if k < j {
          NotBefore(vs, i, hashes, j, i, k);
        }
      }
    }
  }

  /** One value, compared with the queries that are left. */
  lemma HitStep(vs: seq<nat>, i: nat, hashes: seq<nat>, j: nat, k: nat)
    requires Sorted(hashes) && i < |vs| && j <= |hashes| && Parted(vs, i, hashes, j) && k == Skip(hashes, j, vs[i])
    ensures k == |hashes| ==> !Hit(vs, i, hashes)
    ensures k < |hashes| && hashes[k] == vs[i] ==> Hit(vs, i, hashes)
    ensures k < |hashes| && hashes[k] != vs[i] ==> Parted(vs, i + 1, hashes, k) && (Hit(vs, i, hashes) <==> Hit(vs, i + 1, hashes))
  {
    hide Skip, Sorted;
    if k == |hashes| {
      NoneLeft(vs, i, hashes, j);
    } else if hashes[k] == vs[i] {
      assert Leads(vs, i);
    } else {
      Above(vs, i, hashes, j, k);
      PartedNext(vs, i, hashes, j, k);
      NotThis(vs, i, hashes, j);
    }
  }

  lemma Above(vs: seq<nat>, i: nat, hashes: seq<nat>, j: nat, k: nat)
    requires Sorted(hashes) && i < |vs| && j <= |hashes| && k == Skip(hashes, j, vs[i]) && k < |hashes| && hashes[k] != vs[i]
    ensures forall n :: k <= n < |hashes| ==> hashes[n] > vs[i]
    ensures forall n :: j <= n < |hashes| ==> hashes[n] != vs[i]
  {
    forall n | k <= n < |hashes| ensures hashes[n] > vs[i] {
      assert hashes[k] <= hashes[n];
    }
  }

  lemma PartedNext(vs: seq<nat>, i: nat, hashes: seq<nat>, j: nat, k: nat)
    requires Sorted(hashes) && i < |vs| && j <= |hashes| && Parted(vs, i, hashes, j) && k == Skip(hashes, j, vs[i])
    requires k < |hashes| && hashes[k] > vs[i]
    ensures Parted(vs, i + 1, hashes, k)
  {
    forall n | 0 <= n < k ensures hashes[n] < Peak(vs, i + 1) {
      if n >= j {
        assert hashes[n] < vs[i];
      }
    }
    forall n, l | k <= n < |hashes| && 0 <= l < i + 1 ensures hashes[n] > vs[l] {
      assert hashes[k] <= hashes[n];
    }
  }

  /** Scanning any codes with sorted queries decides exactly whether a query equals a leading value. */
  lemma {:induction false} ScanAny(P: nat, bits: seq<bool>, n: nat, value: nat, vs: seq<nat>, i: nat, hashes: seq<nat>, j: nat)
    requires Sorted(hashes) && i <= |vs| && j <= |hashes| && Parted(vs, i, hashes, j)
    requires vs[i..] == Values(P, bits, n, value) && |vs| - i == n
    ensures Scan(P, bits, n, value, hashes, j) == Some(Hit(vs, i, hashes))
    decreases n
  {
    hide GolombDecode, Sorted, Hit, Parted, Skip;
    if n == 0 {
      NoHit(vs, hashes);
    } else {
      var d := GolombDecode(P, bits);
      var v := (value + d.value.0) % WORD;
      assert vs[i..][0] == vs[i] == v && vs[i..][1..] == vs[i + 1..];
      var k := Skip(hashes, j, v);
      HitStep(vs, i, hashes, j, k);
      if k < |hashes| && hashes[k] != v {
        ScanAny(P, bits[d.value.1..], n - 1, v, vs, i + 1, hashes, k);
      }
    }
  }

  lemma NoHit(vs: seq<nat>, hashes: seq<nat>)
    ensures !Hit(vs, |vs|, hashes)
  {
  }

  lemma {:induction false} AllDecoded(P: nat, bits: seq<bool>, n: nat, value: nat)
    ensures |Values(P, bits, n, value)| == n <==> CodeLength(P, bits, n).Some?
    decreases n
  {
    hide GolombDecode;
    var d := GolombDecode(P, bits);
    if n > 0 && d.Some? {
      AllDecoded(P, bits[d.value.1..], n - 1, (value + d.value.0) % WORD);
    }
  }

  /** The values that the bytes of a filter stand for. */
  function Stored(f: Filter): (vs: seq<nat>)
  {
    var size := ReadCompactSize(f.encoded);
    if size.None? then [] else Values(f.params.P, From(f.encoded, size.value.1), f.N, 0)
  }

  /** What FromEncoding accepts. */
  ghost predicate Accepted(f: Filter) { WellCoded(f.params.P, f.encoded) && f.N == ReadCompactSize(f.encoded).value.0 }

  /** On every filter that was read, matching finds exactly the queries that equal a leading value. */
  lemma MatchAccepted(f: Filter, hashes: seq<nat>)
    requires Accepted(f) && Sorted(hashes)
    ensures MatchBits(f, hashes) == Some(Hit(Stored(f), 0, hashes))
  {
    hide From, GolombDecode, ReadCompactSize, CodeLength, Scan, Hit, Values, Sorted;
    var bits := From(f.encoded, ReadCompactSize(f.encoded).value.1);
    AllDecoded(f.params.P, bits, f.N, 0);
    assert Stored(f)[0..] == Stored(f);
    ScanAny(f.params.P, bits, f.N, 0, Stored(f), 0, hashes, 0);
  }

  /** Every value is equal to one that leads. */
  ghost predicate AllLed(vs: seq<nat>) { forall i :: 0 <= i < |vs| ==> Led(vs, vs[i]) }

  ghost predicate Led(vs: seq<nat>, v: nat) { exists m :: 0 <= m < |vs| && Leads(vs, m) && vs[m] == v }

  /** Matching finds all that is stored, for every query, if and only if each value leads or equals one that does. */
  lemma ExactForAll(f: Filter)
    requires Accepted(f)
    ensures (forall hashes :: Sorted(hashes) ==> MatchBits(f, hashes) == Some(Shared(Stored(f), 0, hashes, 0))) <==> AllLed(Stored(f))
  {
    hide MatchBits, Stored, Accepted, Sorted, Shared, Hit, AllLed;
    var vs := Stored(f);
    if AllLed(vs) {
      forall hashes | Sorted(hashes) ensures MatchBits(f, hashes) == Some(Shared(vs, 0, hashes, 0)) {
        MatchAccepted(f, hashes);
        LedShared(vs, hashes);
      }
    } else {
      var i := Unled(vs);
      OneSorted(vs[i]);
      MatchAccepted(f, [vs[i]]);
    }
  }

  lemma OneSorted(v: nat)
    ensures Sorted([v])
  {
  }

  lemma Unled(vs: seq<nat>) returns (i: nat)
    requires !AllLed(vs)
    ensures i < |vs| && Shared(vs, 0, [vs[i]], 0) && !Hit(vs, 0, [vs[i]])
  {
    i :| 0 <= i < |vs| && !Led(vs, vs[i]);
    assert vs[i] == [vs[i]][0];
  }

  lemma LedShared(vs: seq<nat>, hashes: seq<nat>)
    requires AllLed(vs)
    ensures Shared(vs, 0, hashes, 0) <==> Hit(vs, 0, hashes)
  {
    hide Leads;
    if Shared(vs, 0, hashes, 0) {
      var i, k :| 0 <= i < |vs| && 0 <= k < |hashes| && vs[i] == hashes[k];
      assert Led(vs, vs[i]);
      var m :| 0 <= m < |vs| && Leads(vs, m) && vs[m] == vs[i];
    }
    if Hit(vs, 0, hashes) {
      var m :| 0 <= m < |vs| && Leads(vs, m) && vs[m] in hashes;
      var k :| 0 <= k < |hashes| && hashes[k] == vs[m];
    }
  }

  /** In particular when the running sum of the differences stays below 2^64, so that the values are in order. */
  lemma SortedLed(vs: seq<nat>)
    requires Sorted(vs)
    ensures AllLed(vs)
  {
    forall i | 0 <= i < |vs| ensures Led(vs, vs[i]) {
      assert Leads(vs, i);
    }
  }

  /** The running sum of the differences stays below 2^64. */
  predicate NeverWraps(P: nat, bits: seq<bool>, n: nat, value: nat)
    decreases n
  {
    var d := GolombDecode(P, bits);
    n == 0 || d.None? || (value + d.value.0 < WORD && NeverWraps(P, bits[d.value.1..], n - 1, value + d.value.0))
  }

  lemma {:induction false} SumsSorted(P: nat, bits: seq<bool>, n: nat, value: nat)
    requires value < WORD
    ensures var vs := Values(P, bits, n, value); NeverWraps(P, bits, n, value) <==> Sorted(vs) && forall v :: v in vs ==> v >= value
    decreases n
  {
    hide GolombDecode, Sorted;
    var d := GolombDecode(P, bits);
    if n == 0 || d.None? {
      NoneSorted();
    } else {
      var v := (value + d.value.0) % WORD;
      DecodedBelow(P, bits);
      var rest := Values(P, bits[d.value.1..], n - 1, v);
      SumsSorted(P, bits[d.value.1..], n - 1, v);
      SumStep(value, d.value.0, v, rest);
    }
  }

  lemma SumStep(value: nat, delta: nat, v: nat, rest: seq<nat>)
    requires value < WORD && delta < WORD && v == (value + delta) % WORD
    ensures value + delta < WORD <==> v >= value
    ensures v >= value && Sorted(rest) && (forall w :: w in rest ==> w >= v)
            <==> Sorted([v] + rest) && forall w :: w in [v] + rest ==> w >= value
  {
    SortedCons(v, rest);
    assert v in [v] + rest;
    if Sorted([v] + rest) && forall w :: w in [v] + rest ==> w >= value {
      assert v >= value;
    }
  }

  lemma NoneSorted()
    ensures Sorted([])
  {
  }

  lemma DecodedBelow(P: nat, bits: seq<bool>)
    ensures GolombDecode(P, bits).Some? ==> GolombDecode(P, bits).value.0 < WORD
  {
  }

  lemma SortedCons(v: nat, vs: seq<nat>)
    ensures Sorted([v] + vs) <==> Sorted(vs) && forall w :: w in vs ==> w >= v
  {
    var all := [v] + vs;
    if Sorted(all) {
      forall i, j | 0 <= i < j < |vs| ensures vs[i] <= vs[j] {
        assert all[i + 1] <= all[j + 1];
      }
      forall w | w in vs ensures w >= v {
        var i :| 0 <= i < |vs| && vs[i] == w;
        assert all[0] <= all[i + 1];
      }
    }
    if Sorted(vs) && forall w :: w in vs ==> w >= v {
      forall i, j | 0 <= i < j < |all| ensures all[i] <= all[j] {
        assert all[j] == vs[j - 1] && vs[j - 1] in vs;
      }
    }
  }

  /** On a filter that was read, whose running sum stays below 2^64, matching is exact. */
  lemma MatchUnwrapped(f: Filter, hashes: seq<nat>)
    requires Accepted(f) && Sorted(hashes)
    requires var start := ReadCompactSize(f.encoded).value.1; NeverWraps(f.params.P, From(f.encoded, start), f.N, 0)
    ensures MatchBits(f, hashes) == Some(Shared(Stored(f), 0, hashes, 0))
  {
    hide From, GolombDecode, MatchBits, Sorted, Shared, Hit, AllLed, CodeLength, ReadCompactSize, Values, NeverWraps;
    SumsSorted(f.params.P, From(f.encoded, ReadCompactSize(f.encoded).value.1), f.N, 0);
    MatchAccepted(f, hashes);
    SortedLed(Stored(f));
    LedShared(Stored(f), hashes);
  }

  /** Two differences whose sum wraps around: the stream holds 5, and matching does not find it. */
  lemma WrapForExample(tail: seq<bool>)
    ensures var bits := Golomb(63, WORD / 2 + 5) + (Golomb(63, WORD / 2) + tail);
            Values(63, bits, 2, 0) == [WORD / 2 + 5, 5] && Scan(63, bits, 2, 0, [5], 0) == Some(false)
  {
    hide Golomb, GolombDecode;
    var first, second := Golomb(63, WORD / 2 + 5), Golomb(63, WORD / 2);
    var rest := second + tail;
    GolombRoundTrip(63, WORD / 2 + 5, rest);
    GolombRoundTrip(63, WORD / 2, tail);
    assert (first + rest)[|first|..] == rest;
    assert (WORD / 2 + 5 + WORD / 2) % WORD == 5;
    assert Values(63, rest, 1, WORD / 2 + 5) == [5];
  }

  /** Some query falls on a leading value of the filter. */
  ghost predicate Found(f: Filter, queries: seq<Element>)
    requires Accepted(f)
  {
    var vs := Stored(f);
    exists m, q :: 0 <= m < |vs| && 0 <= q < |queries| && Leads(vs, m) && vs[m] == HashToRange(f.params, f.F, queries[q])
  }

  lemma HitFound(f: Filter, queries: seq<Element>, hashes: seq<nat>)
    requires Accepted(f) && HashesOf(f.params, f.F, queries, hashes)
    ensures Hit(Stored(f), 0, hashes) <==> Found(f, queries)
  {
    hide HashToRange, Stored, Leads, Accepted;
    var vs := Stored(f);
    if Hit(vs, 0, hashes) {
      var m :| 0 <= m < |vs| && Leads(vs, m) && vs[m] in hashes;
      var q :| 0 <= q < |queries| && HashToRange(f.params, f.F, queries[q]) == vs[m];
    }
    if Found(f, queries) {
      var m, q :| 0 <= m < |vs| && 0 <= q < |queries| && Leads(vs, m) && vs[m] == HashToRange(f.params, f.F, queries[q]);
    }
  }

  /** A filter is built from elements or read from bytes. */
  ghost predicate Usable(f: Filter) { f.params.P < 64 && f.F < WORD }

  /** What is asked of a match: on a filter that was read, the queries that fall on a leading value; on one that was
      built, the collisions with its elements, unless its count is too large to read back. */
  ghost predicate Answers(f: Filter, queries: seq<Element>, r: Option<bool>) {
    && (Accepted(f) ==> r == Some(Found(f, queries)))
    && forall elements, vs :: BuiltFrom(f, elements, vs) ==>
         r == if f.N <= MAX_SIZE then Some(Collide(f.params, f.F, elements, queries)) else None
  }

  lemma MatchAnswers(f: Filter, queries: seq<Element>, hashes: seq<nat>)
    requires Sorted(hashes) && HashesOf(f.params, f.F, queries, hashes)
    ensures Answers(f, queries, MatchBits(f, hashes))
  {
    hide MatchBits, HashToRange, Encodes, Sorted, HashesOf, Collide, Found, Accepted, Hit, Shared;
    if Accepted(f) {
      MatchAccepted(f, hashes);
      HitFound(f, queries, hashes);
    }
    forall elements, vs | BuiltFrom(f, elements, vs)
      ensures MatchBits(f, hashes) == if f.N <= MAX_SIZE then Some(Collide(f.params, f.F, elements, queries)) else None
    {
      MatchExact(f, vs, hashes);
      SharedExactly(f.params, f.F, elements, vs, queries, hashes);
    }
  }

  method MatchAny(f: Filter, queries: seq<Element>) returns (r: Option<bool>)
    requires Usable(f)
    ensures Answers(f, queries, r)
  {
    hide HashToRange, MatchBits, Answers;
    var hashes := BuildHashedSet(f.params, f.F, queries);
    MatchAnswers(f, queries, hashes);
    r := MatchInternal(f, hashes);
  }

  method Match(f: Filter, element: Element) returns (r: Option<bool>)
    requires Usable(f)
    ensures Answers(f, [element], r)
  {
    hide HashToRange, MatchBits, Answers;
    var query := HashElement(f.params, f.F, element);
    OneHash(f.params, f.F, element, query);
    MatchAnswers(f, [element], [query]);
    r := MatchInternal(f, [query]);
  }

  lemma OneHash(p: Params, F: nat, e: Element, v: nat)
    requires v == HashToRange(p, F, e)
    ensures HashesOf(p, F, [e], [v])
  {
    hide HashToRange;
    assert [e][0] == e;
  }

  /** An element of the filter always matches. */
  lemma NoFalseNegative(p: Params, F: nat, elements: seq<Element>, queries: seq<Element>, k: nat)
    requires k < |queries| && queries[k] in elements
    ensures Collide(p, F, elements, queries) && Collide(p, F, elements, [queries[k]])
  {
    hide HashToRange;
    var e :| 0 <= e < |elements| && elements[e] == queries[k];
    assert HashToRange(p, F, elements[e]) == HashToRange(p, F, [queries[k]][0]);
  }

  // ------------------------------------------------------------------
  // Reading an encoding
  // ------------------------------------------------------------------

  /** How many bits `n` codes take; none when the stream ends before. */
  function CodeLength(P: nat, bits: seq<bool>, n: nat): (r: Option<nat>)
    ensures r.Some? ==> r.value <= |bits|
  {
    if n == 0 then Some(0)
    else
      var d := GolombDecode(P, bits);
      if d.None? then None
      else
        var rest := CodeLength(P, bits[d.value.1..], n - 1);
        if rest.None? then None else Some(d.value.1 + rest.value)
  }

  /** A stream holds exactly as many values as it says, up to its last byte. */
  ghost predicate WellCoded(P: nat, encoded: seq<Byte>) {
    && ReadCompactSize(encoded).Some?
    && var (N, start) := ReadCompactSize(encoded).value;
    && CodeLength(P, From(encoded, start), N).Some?
    && |From(encoded, start)| < CodeLength(P, From(encoded, start), N).value + 8
  }

  method SkipCodes(reader: BitReader, P: nat, n: nat) returns (ok: bool)
    requires reader.Valid() && reader.offset > 0 && P < 64
    modifies reader
    ensures reader.Valid() && reader.offset > 0
    ensures var len := CodeLength(P, old(reader.Rest()), n);
            (ok <==> len.Some?) && (ok ==> reader.Rest() == old(reader.Rest())[len.value..])
  {
    hide BitsOf, From, GolombDecode, CodeLength, Plus;
    ghost var bits, used: nat := reader.Rest(), 0;
    assert bits[0..] == bits;
    PlusNone(CodeLength(P, bits, n));
    for i := 0 to n
      invariant reader.Valid() && reader.offset > 0 && used <= |bits| && reader.Rest() == bits[used..]
      invariant CodeLength(P, bits, n) == Plus(used, CodeLength(P, bits[used..], n - i))
    {
      CodeStep(P, bits, used, n - i);
      ghost var d := GolombDecode(P, bits[used..]);
      var x := GolombRiceDecode(reader, P);
      if x == None {
        return false;
      }
      assert bits[used..][d.value.1..] == bits[used + d.value.1..];
      used := used + d.value.1;
    }
    CodesDone(P, bits[used..], used);
    return true;
  }

  lemma PlusNone(r: Option<nat>)
    ensures Plus(0, r) == r
  {
  }

  lemma CodeStep(P: nat, bits: seq<bool>, used: nat, n: nat)
    requires used <= |bits| && n > 0
    ensures var d := GolombDecode(P, bits[used..]);
            if d.None? then Plus(used, CodeLength(P, bits[used..], n)) == None
            else used + d.value.1 <= |bits|
                 && Plus(used, CodeLength(P, bits[used..], n)) == Plus(used + d.value.1, CodeLength(P, bits[used + d.value.1..], n - 1))
  {
    hide GolombDecode, CodeLength;
    OneCode(P, bits[used..], n);
    var d := GolombDecode(P, bits[used..]);
    if d.Some? {
      assert bits[used..][d.value.1..] == bits[used + d.value.1..];
    }
  }

  lemma CodesDone(P: nat, bits: seq<bool>, used: nat)
    ensures Plus(used, CodeLength(P, bits, 0)) == Some(used)
  {
  }

  function Plus(n: nat, r: Option<nat>): Option<nat> { if r.None? then None else Some(n + r.value) }

  lemma OneCode(P: nat, bits: seq<bool>, n: nat)
    ensures n == 0 ==> CodeLength(P, bits, n) == Some(0)
    ensures n > 0 ==>
              var d := GolombDecode(P, bits);
              CodeLength(P, bits, n) == if d.None? then None else Plus(d.value.1, CodeLength(P, bits[d.value.1..], n - 1))
  {
    hide GolombDecode;
  }

  /** A filter from its encoding. */
  method FromEncoding(p: Params, encoded: seq<Byte>) returns (r: Option<Filter>)
    requires Sane(p)
    ensures r.Some? <==> WellCoded(p.P, encoded)
    ensures r.Some? ==> var N := ReadCompactSize(encoded).value.0; r.value == Filter(p, N, Times(N, p.M), encoded)
  {
    hide BitsOf, From, GolombDecode, ReadCompactSize, CodeLength;
    var size := ReadCompactSize(encoded);
    if size == None {
      return None;
    }
    var N := size.value.0;
    var reader := new BitReader(encoded, size.value.1);
    var ok := SkipCodes(reader, p.P, N);
    if !ok || reader.pos != |encoded| {
      return None;
    }
    return Some(Filter(p, N, Times(N, p.M), encoded));
  }

  lemma {:induction false} CodesLength(P: nat, vs: seq<nat>, i: nat, bits: seq<bool>)
    requires Sorted(vs) && i <= |vs| && (forall v :: v in vs ==> v < WORD) && Codes(P, vs, i) <= bits
    ensures CodeLength(P, bits, |vs| - i) == Some(|Codes(P, vs, i)|)
    decreases |vs| - i
  {
    hide Golomb, GolombDecode;
    if i < |vs| {
      var v: nat, delta: nat := vs[i], vs[i] - Previous(vs, i);
      assert v in vs;
      NextCode(P, vs, i, bits);
      var tail := bits[|Golomb(P, delta)|..];
      GolombRoundTrip(P, delta, tail);
      CodesLength(P, vs, i + 1, tail);
    }
  }

  /** The encoding of every filter that can be read back at all is accepted and gives the same filter. */
  method Reload(p: Params, elements: seq<Element>) returns (f: Option<Filter>, g: Option<Filter>)
    requires Sane(p)
    ensures |elements| <= MAX_SIZE ==> f.Some? && g == f
    ensures MAX_SIZE < |elements| < BASE ==> f.Some? && g == None
  {
    hide From, Golomb, CompactSize, ReadCompactSize, CodeLength;
    ghost var vs;
    f, vs := Build(p, elements);
    if f == None {
      return None, None;
    }
    Reloads(f.value, vs);
    g := FromEncoding(p, f.value.encoded);
  }

  lemma Reloads(f: Filter, vs: seq<nat>)
    requires Encodes(f, vs)
    ensures if f.N <= MAX_SIZE then
              ReadCompactSize(f.encoded) == Some((f.N, |CompactSize(f.N)|)) && WellCoded(f.params.P, f.encoded)
            else ReadCompactSize(f.encoded) == None
  {
    hide From, Golomb, CompactSize, ReadCompactSize, CodeLength;
    var header := CompactSize(f.N);
    assert f.encoded == header + f.encoded[|header|..];
    CompactSizeRoundTrip(f.N, f.encoded[|header|..]);
    if f.N <= MAX_SIZE {
      CodesLength(f.params.P, vs, 0, From(f.encoded, |header|));
    }
  }
}
