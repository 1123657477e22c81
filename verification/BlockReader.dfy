/** Finding entries in the bytes of a block. */
module BlockEntries {
  import opened Coding
  import opened BlockFormat

  datatype Header = Header(shared: nat, nonShared: nat, valueLength: nat, next: nat) | BadHeader

  /** The three lengths in front of an entry, with a shortcut where each takes a single byte. */
  function DecodeHeader(s: seq<Byte>, p: nat, limit: nat): (h: Header)
    requires limit <= |s|
    ensures h.Header? ==> p < h.next <= limit
  {
    if p + 3 > limit then BadHeader
    else if s[p] < 128 && s[p + 1] < 128 && s[p + 2] < 128 then Header(s[p], s[p + 1], s[p + 2], p + 3)
    else DecodeLongHeader(s, p, limit)
  }

  function DecodeLongHeader(s: seq<Byte>, p: nat, limit: nat): (h: Header)
    requires p <= limit <= |s|
    ensures h.Header? ==> p < h.next <= limit
  {
    var shared := GetVarint32(s, p, limit);
    if shared.Bad? then BadHeader
    else
      var nonShared := GetVarint32(s, shared.next, limit);
      if nonShared.Bad? then BadHeader
      else
        var valueLength := GetVarint32(s, nonShared.next, limit);
        if valueLength.Bad? then BadHeader
        else Header(shared.value, nonShared.value, valueLength.value, valueLength.next)
  }

  function DecodeEntry(s: seq<Byte>, p: nat, limit: nat): (h: Header)
    requires limit <= |s|
    ensures h.Header? ==> p < h.next && h.next + h.nonShared + h.valueLength <= limit
  {
    var h := DecodeHeader(s, p, limit);
    if h.Header? && limit - h.next < h.nonShared + h.valueLength then BadHeader else h
  }

  lemma ShortVarint(s: seq<Byte>, p: nat, limit: nat)
    requires p < limit <= |s| && s[p] < 128
    ensures GetVarint32(s, p, limit) == Parsed(s[p], p + 1)
  {
  }

  /** The shortcut reads what the general way reads. */
  lemma ShortcutAgrees(s: seq<Byte>, p: nat, limit: nat)
    requires p + 3 <= limit <= |s|
    ensures DecodeHeader(s, p, limit) == DecodeLongHeader(s, p, limit)
  {
    hide GetVarint32;
    if s[p] < 128 && s[p + 1] < 128 && s[p + 2] < 128 {
      ShortVarint(s, p, limit);
      ShortVarint(s, p + 1, limit);
      ShortVarint(s, p + 2, limit);
    }
  }

  /** An encoded entry is decoded to its lengths, and its parts are found behind them. */
  lemma EntryDecodes(s: seq<Byte>, p: nat, limit: nat, shared: nat, e: KV)
    requires shared <= |e.key| < 0x1_0000_0000 && |e.value| < 0x1_0000_0000
    requires Stands(s, p, EncodeEntry(shared, e)) && p + |EncodeEntry(shared, e)| <= limit <= |s|
    ensures var h := DecodeEntry(s, p, limit);
            && h.Header? && h.shared == shared && h.nonShared == |e.key| - shared && h.valueLength == |e.value|
            && h.next + h.nonShared + h.valueLength == p + |EncodeEntry(shared, e)|
            && s[h.next..h.next + h.nonShared] == e.key[shared..]
            && s[h.next + h.nonShared..h.next + h.nonShared + h.valueLength] == e.value
  {
    hide EncodeHeader, DecodeLongHeader, DecodeHeader;
    var header, delta := EncodeHeader(shared, |e.key| - shared, |e.value|), e.key[shared..];
    StandsSplit(s, p, header, delta + e.value);
    StandsSplit(s, p + |header|, delta, e.value);
    HeaderDecodes(s, p, limit, shared, |e.key| - shared, |e.value|);
    ShortcutAgrees(s, p, limit);
  }

  lemma HeaderDecodes(s: seq<Byte>, p: nat, limit: nat, shared: Word, nonShared: Word, valueLength: Word)
    requires Stands(s, p, EncodeHeader(shared, nonShared, valueLength)) && p + |EncodeHeader(shared, nonShared, valueLength)| <= limit <= |s|
    ensures DecodeLongHeader(s, p, limit) == Header(shared, nonShared, valueLength, p + |EncodeHeader(shared, nonShared, valueLength)|)
  {
    hide EncodeVarint32, GetVarint32;
    var a, b, c := EncodeVarint32(shared), EncodeVarint32(nonShared), EncodeVarint32(valueLength);
    StandsSplit(s, p, a, b + c);
    StandsSplit(s, p + |a|, b, c);
    Varint32RoundTrip(shared, s, p, limit);
    Varint32RoundTrip(nonShared, s, p + |a|, limit);
    Varint32RoundTrip(valueLength, s, p + |a| + |b|, limit);
  }

  /** Entry `i` stands at its offset. */
  lemma EntryStands(es: seq<KV>, interval: nat, i: nat, s: seq<Byte>)
    requires interval > 0 && Encodable(es) && i < |es| && Data(es, interval, |es|) <= s
    ensures Stands(s, Offset(es, interval, i), EncodeEntry(Shared(es, interval, i), es[i]))
    ensures Offset(es, interval, i + 1) == Offset(es, interval, i) + |EncodeEntry(Shared(es, interval, i), es[i])|
  {
    hide EncodeEntry, Shared;
    OffsetsAscend(es, interval, i + 1, |es|);
    var data := Data(es, interval, i + 1);
    assert data <= s;
    assert s[..|data|] == data;
    assert s[|Data(es, interval, i)|..|data|] == data[|Data(es, interval, i)|..];
  }
}
