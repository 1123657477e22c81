/** Bloom filters and the filter block that holds one of them for every range of file offsets. */
module FilterBlocks {
  import opened Coding

  type Hash = seq<Byte> -> Word

  /** A filter is its bits and the number of probes; one for no keys at all has neither. */
  datatype Filter = Filter(bits: seq<bool>, probes: nat) | EmptyFilter

  /** Rotates right by 17 bits. */
  function Delta(h: Word): Word {
    h / 0x2_0000 + h % 0x2_0000 * 0x8000
  }

  /** The hash value of probe `j`. */
  function ProbeHash(h: Word, j: nat): Word {
    if j == 0 then h else (ProbeHash(h, j - 1) + Delta(h)) % 0x1_0000_0000
  }

  function Probe(hash: Hash, key: seq<Byte>, j: nat, bits: nat): (p: nat)
    requires bits > 0
    ensures p < bits
  {
    ProbeHash(hash(key), j) % bits
  }

  predicate Matches(hash: Hash, f: Filter, key: seq<Byte>) {
    f.Filter? && |f.bits| > 0 && forall j :: 0 <= j < f.probes ==> f.bits[Probe(hash, key, j, |f.bits|)]
  }

  predicate IsProbed(hash: Hash, keys: seq<seq<Byte>>, probes: nat, bits: nat, p: nat)
    requires bits > 0
  {
    exists i, j :: 0 <= i < |keys| && 0 <= j < probes && Probe(hash, keys[i], j, bits) == p
  }

  /** The size in bits: at least 64, in whole bytes. */
  function FilterBits(n: nat, bitsPerKey: nat): (bits: nat)
    ensures bits >= 64 && bits % 8 == 0
    ensures n * bitsPerKey <= bits && (bits == 64 || bits < n * bitsPerKey + 8)
  {
    var wanted := n * bitsPerKey;
    ((if wanted < 64 then 64 else wanted) + 7) / 8 * 8
  }

  /** Sets the bits that the probes of the keys hit, and no others. */
  method CreateFilter(hash: Hash, keys: seq<seq<Byte>>, bitsPerKey: nat, probes: nat) returns (f: Filter)
    ensures f.Filter? && f.probes == probes && |f.bits| == FilterBits(|keys|, bitsPerKey)
    ensures forall p :: 0 <= p < |f.bits| ==> (f.bits[p] <==> IsProbed(hash, keys, probes, |f.bits|, p))
    ensures forall i :: 0 <= i < |keys| ==> Matches(hash, f, keys[i])
  {
    var n := FilterBits(|keys|, bitsPerKey);
    var bits := seq(n, _ => false);
    for i := 0 to |keys|
      invariant |bits| == n
      invariant forall p :: 0 <= p < n ==> (bits[p] <==> IsProbed(hash, keys[..i], probes, n, p))
    {
      bits := SetProbes(hash, keys, i, probes, bits);
    }
    assert keys[..|keys|] == keys;
    f := Filter(bits, probes);
    forall i | 0 <= i < |keys| ensures Matches(hash, f, keys[i]) {
      forall j | 0 <= j < probes ensures bits[Probe(hash, keys[i], j, n)] {
        assert IsProbed(hash, keys, probes, n, Probe(hash, keys[i], j, n));
      }
    }
  }

  /** Sets the bits of one key. */
  method SetProbes(hash: Hash, keys: seq<seq<Byte>>, i: nat, probes: nat, before: seq<bool>) returns (bits: seq<bool>)
    requires i < |keys| && |before| > 0
    requires forall p :: 0 <= p < |before| ==> (before[p] <==> IsProbed(hash, keys[..i], probes, |before|, p))
    ensures |bits| == |before|
    ensures forall p :: 0 <= p < |bits| ==> (bits[p] <==> IsProbed(hash, keys[..i + 1], probes, |bits|, p))
  {
    hide Delta;
    var n := |before|;
    var h := hash(keys[i]);
    var delta := Delta(h);
    bits := before;
    for j := 0 to probes
      invariant |bits| == n && h == ProbeHash(hash(keys[i]), j)
      invariant forall p :: 0 <= p < n ==> (bits[p] <==> before[p] || exists m :: 0 <= m < j && Probe(hash, keys[i], m, n) == p)
    {
      var bitpos := h % n;
      assert bitpos == Probe(hash, keys[i], j, n);
      bits := bits[bitpos := true];
      h := (h + delta) % 0x1_0000_0000;
    }
    forall p | 0 <= p < n ensures bits[p] <==> IsProbed(hash, keys[..i + 1], probes, n, p) {
      OneMoreKey(hash, keys, i, probes, n, p);
    }
  }

  lemma OneMoreKey(hash: Hash, keys: seq<seq<Byte>>, i: nat, probes: nat, bits: nat, p: nat)
    requires i < |keys| && bits > 0
    ensures IsProbed(hash, keys[..i + 1], probes, bits, p)
       <==> IsProbed(hash, keys[..i], probes, bits, p) || exists m :: 0 <= m < probes && Probe(hash, keys[i], m, bits) == p
  {
    hide Probe;
    if IsProbed(hash, keys[..i], probes, bits, p) {
      var k, j :| 0 <= k < i && 0 <= j < probes && Probe(hash, keys[..i][k], j, bits) == p;
      assert keys[..i + 1][k] == keys[..i][k];
    }
    if m :| 0 <= m < probes && Probe(hash, keys[i], m, bits) == p {
      assert keys[..i + 1][i] == keys[i];
    }
    if IsProbed(hash, keys[..i + 1], probes, bits, p) {
      var k, j :| 0 <= k < i + 1 && 0 <= j < probes && Probe(hash, keys[..i + 1][k], j, bits) == p;
      assert k < i ==> keys[..i][k] == keys[..i + 1][k];
    }
  }

  /** False only if one of the key's bits is not set. */
  method KeyMayMatch(hash: Hash, key: seq<Byte>, f: Filter) returns (r: bool)
    ensures Matches(hash, f, key) ==> r
    ensures f.Filter? && f.probes <= 30 && |f.bits| > 0 ==> (r <==> Matches(hash, f, key))
    ensures f.EmptyFilter? || |f.bits| == 0 ==> !r
    ensures f.Filter? && |f.bits| > 0 && f.probes > 30 ==> r
  {
    hide Delta;
    if f.EmptyFilter? || |f.bits| == 0 {
      return false;
    }
    if f.probes > 30 {
      return true;
    }
    var n := |f.bits|;
    var h := hash(key);
    var delta := Delta(h);
    for j := 0 to f.probes
      invariant h == ProbeHash(hash(key), j)
      invariant forall m :: 0 <= m < j ==> f.bits[Probe(hash, key, m, n)]
    {
      if !f.bits[h % n] {
        assert !f.bits[Probe(hash, key, j, n)];
        return false;
      }
      h := (h + delta) % 0x1_0000_0000;
    }
    return true;
  }

  // ----- one filter for every range of offsets -----

  const FILTER_BASE: nat := 2048

  class FilterBlockBuilder {
    const hash: Hash
    const bitsPerKey: nat
    const probes: nat
    var pending: seq<seq<Byte>>     // keys of the filter to come
    var filters: seq<Filter>
    ghost var added: set<(nat, seq<Byte>)>  // keys with the number of the filter they belong to

    ghost predicate Valid() reads this {
      && (forall i, u :: (i, u) in added ==> i <= |filters|)
      && (forall i, u :: (i, u) in added && i < |filters| ==> Matches(hash, filters[i], u))
      && (forall i, u :: (i, u) in added && i == |filters| ==> u in pending)
    }

    constructor (hash: Hash, bitsPerKey: nat, probes: nat)
      ensures Valid() && added == {} && filters == []
    {
      this.hash, this.bitsPerKey, this.probes := hash, bitsPerKey, probes;
      pending, filters, added := [], [], {};
    }

    method StartBlock(offset: nat)
      requires Valid() && |filters| <= offset / FILTER_BASE
      modifies this
      ensures Valid() && added == old(added) && |filters| == offset / 2048
    {
      while offset / FILTER_BASE > |filters|
        invariant Valid() && added == old(added) && |filters| <= offset / FILTER_BASE
        decreases offset / FILTER_BASE - |filters|
      {
        GenerateFilter();
      }
    }

    method AddKey(key: seq<Byte>)
      requires Valid()
      modifies this
      ensures Valid() && filters == old(filters) && added == old(added) + {(|filters|, key)}
    {
      pending := pending + [key];
      added := added + {(|filters|, key)};
    }

    method GenerateFilter()
      requires Valid()
      modifies this
      ensures Valid() && added == old(added) && |filters| == |old(filters)| + 1
    {
      hide Matches, IsProbed;
      if pending == [] {
        filters := filters + [EmptyFilter];
      } else {
        var f := CreateFilter(hash, pending, bitsPerKey, probes);
        filters := filters + [f];
        pending := [];
      }
    }

    method Finish() returns (all: seq<Filter>)
      requires Valid()
      modifies this
      ensures Valid() && added == old(added) && all == filters
      ensures forall i, u :: (i, u) in added ==> i < |all| && Matches(hash, all[i], u)
    {
      hide Matches;
      if pending != [] {
        GenerateFilter();
      }
      all := filters;
    }
  }

  /** Asks the filter of the range in which a block starts; there is nothing to ask past the last one. */
  method BlockMayMatch(hash: Hash, filters: seq<Filter>, offset: nat, key: seq<Byte>) returns (r: bool)
    ensures var i := offset / 2048;
            i >= |filters| || Matches(hash, filters[i], key) ==> r
  {
    var i := offset / FILTER_BASE;
    if i < |filters| {
      r := KeyMayMatch(hash, key, filters[i]);
    } else {
      r := true;
    }
  }
}
