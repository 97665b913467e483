/** Streams of frames: what a byte string means, independently of how it is
    cut into reads, and which packet sequences survive the trip. */
module Frames {
  import opened Protocol

  function EncodeAll(ps: seq<Packet>): Bytes {
    if ps == [] then [] else Encode(ps[0]) + EncodeAll(ps[1..])
  }

  function Concat(bufs: seq<Bytes>): Bytes {
    if bufs == [] then [] else bufs[0] + Concat(bufs[1..])
  }

  lemma Associative<T>(a: seq<T>, b: seq<T>, c: seq<T>)
    ensures a + b + c == a + (b + c)
  {
  }

  lemma {:induction false} EncodeAllAppend(ps: seq<Packet>, qs: seq<Packet>)
    ensures EncodeAll(ps + qs) == EncodeAll(ps) + EncodeAll(qs)
  {
    if ps == [] {
      assert ps + qs == qs;
    } else {
      EncodeAllAppend(ps[1..], qs);
      assert (ps + qs)[1..] == ps[1..] + qs;
      Associative(Encode(ps[0]), EncodeAll(ps[1..]), EncodeAll(qs));
    }
  }

  lemma EncodeAllSnoc(ps: seq<Packet>, p: Packet)
    ensures EncodeAll(ps + [p]) == EncodeAll(ps) + Encode(p)
  {
    EncodeAllAppend(ps, [p]);
    assert EncodeAll([p]) == Encode(p) + [];
  }

  lemma EncodeAllTake(ps: seq<Packet>, m: nat)
    requires 0 < m <= |ps|
    ensures EncodeAll(ps[..m]) == EncodeAll(ps[..m - 1]) + Encode(ps[m - 1])
  {
    EncodeAllSnoc(ps[..m - 1], ps[m - 1]);
    assert ps[..m] == ps[..m - 1] + [ps[m - 1]];
  }

  lemma {:induction false} EncodeAllSplit(ps: seq<Packet>, n: nat)
    requires n <= |ps|
    ensures EncodeAll(ps) == EncodeAll(ps[..n]) + EncodeAll(ps[n..])
  {
    EncodeAllAppend(ps[..n], ps[n..]);
    assert ps == ps[..n] + ps[n..];
  }

  // ----- the packets a sender can get through -------------------------------

  function ValidPrefix(ps: seq<Packet>): (r: seq<Packet>)
    ensures r <= ps && (forall p <- r :: Valid(p))
    ensures |r| < |ps| ==> !Valid(ps[|r|])
  {
    if ps == [] || !Valid(ps[0]) then [] else [ps[0]] + ValidPrefix(ps[1..])
  }

  function NormaliseAll(ps: seq<Packet>): (r: seq<Packet>)
    ensures |r| == |ps| && forall i :: 0 <= i < |ps| ==> r[i] == Normalised(ps[i])
  {
    seq(|ps|, i requires 0 <= i < |ps| => Normalised(ps[i]))
  }

  /** The first packet the receiver must refuse is one it does refuse: its
      length field has not wrapped round to an acceptable value. */
  predicate FirstBadIsRefused(ps: seq<Packet>) {
    var n := |ValidPrefix(ps)|;
    n < |ps| ==> !Wraps(ps[n])
  }

  lemma ShortPayloadsAreRefused(ps: seq<Packet>)
    requires forall p <- ps :: |p.payload| < U32_RANGE
    ensures FirstBadIsRefused(ps)
  {
    var n := |ValidPrefix(ps)|;
    if n < |ps| {
      assert ps[n] in ps;
    }
  }

  // ----- the reference parser -----------------------------------------------

  /** What is left over when no further frame can be taken off the front. */
  datatype Tail = Partial(bytes: Bytes) | Refused(bytes: Bytes)

  datatype Parsed = Parsed(packets: seq<Packet>, tail: Tail)

  function ParseStream(s: Bytes): Parsed {
    if |s| < HEADER_SIZE then Parsed([], Partial(s)) else
    match DeserializeHeader(s[..HEADER_SIZE])
    case None => Parsed([], Refused(s))
    case Some(h) =>
      var size := HEADER_SIZE + h.length;
      if |s| < size then Parsed([], Partial(s)) else
      Prepend([Packet(h, s[HEADER_SIZE..size])], ParseStream(s[size..]))
  }

  function Prepend(ps: seq<Packet>, r: Parsed): Parsed {
    Parsed(ps + r.packets, r.tail)
  }

  lemma PrependTwice(ps: seq<Packet>, qs: seq<Packet>, r: Parsed)
    ensures Prepend(ps, Prepend(qs, r)) == Prepend(ps + qs, r)
    ensures Prepend([], r) == r
  {
  }

  /** Parsing is compositional: once a prefix has been parsed only its tail matters. */
  lemma {:induction false} ParseAppend(s: Bytes, t: Bytes)
    ensures ParseStream(s + t) ==
      match ParseStream(s)
      case Parsed(ps, Partial(b)) => Prepend(ps, ParseStream(b + t))
      case Parsed(ps, Refused(b)) => Parsed(ps, Refused(b + t))
  {
    hide DeserializeHeader;
    if |s| >= HEADER_SIZE {
      assert (s + t)[..HEADER_SIZE] == s[..HEADER_SIZE];
      match DeserializeHeader(s[..HEADER_SIZE])
      case None =>
      case Some(h) =>
        var size := HEADER_SIZE + h.length;
        if |s| >= size {
          var first := [Packet(h, s[HEADER_SIZE..size])];
          var b := ParseStream(s[size..]);
          ParseAppend(s[size..], t);
          assert (s + t)[size..] == s[size..] + t;
          assert (s + t)[HEADER_SIZE..size] == s[HEADER_SIZE..size];
          assert ParseStream(s + t) == Prepend(first, ParseStream(s[size..] + t));
          PrependTwice(first, b.packets, ParseStream(b.tail.bytes + t));
        }
    }
  }

  /** A frame that was read can be written back: the same bytes result. */
  lemma {:induction false} DecodedFrame(s: Bytes)
    requires |s| >= HEADER_SIZE && DeserializeHeader(s[..HEADER_SIZE]).Some?
    requires |s| == HEADER_SIZE + DeserializeHeader(s[..HEADER_SIZE]).value.length
    ensures var p := Packet(DeserializeHeader(s[..HEADER_SIZE]).value, s[HEADER_SIZE..]);
      Canonical(p) && Encode(p) == s
  {
    hide HeaderBytes, DeserializeHeader;
    HeaderBytesOfDecoded(s[..HEADER_SIZE]);
    var p := Packet(DeserializeHeader(s[..HEADER_SIZE]).value, s[HEADER_SIZE..]);
    assert WireHeader(p) == p.header;
    assert s == s[..HEADER_SIZE] + s[HEADER_SIZE..];
  }

  /** Nothing is lost or invented: the parsed packets and the tail are the input. */
  lemma {:induction false} ParseIsFaithful(s: Bytes)
    ensures var r := ParseStream(s);
      && s == EncodeAll(r.packets) + r.tail.bytes
      && (forall p <- r.packets :: Canonical(p))
  {
    hide Encode, HeaderBytes, Canonical, DeserializeHeader;
    if |s| >= HEADER_SIZE && DeserializeHeader(s[..HEADER_SIZE]).Some? {
      var size := HEADER_SIZE + DeserializeHeader(s[..HEADER_SIZE]).value.length;
      if |s| >= size {
        var rest := ParseStream(s[size..]);
        assert s[..size][..HEADER_SIZE] == s[..HEADER_SIZE];
        assert s[..size][HEADER_SIZE..] == s[HEADER_SIZE..size];
        DecodedFrame(s[..size]);
        ParseIsFaithful(s[size..]);
        assert s == s[..size] + s[size..];
        Associative(s[..size], EncodeAll(rest.packets), rest.tail.bytes);
      }
    }
  }

  /** One canonical frame on the front of a stream is taken off whole. */
  lemma {:induction false} ParseFrame(p: Packet, t: Bytes)
    requires Canonical(p)
    ensures ParseStream(Encode(p) + t) == Prepend([p], ParseStream(t))
  {
    hide HeaderBytes, DeserializeHeader, Encode;
    EncodeParts(p, t);
    DecodeHeaderBytes(p.header);
    assert WireHeader(p) == p.header;
  }

  lemma {:induction false} ParseFrames(ps: seq<Packet>, t: Bytes)
    requires forall p <- ps :: Canonical(p)
    ensures ParseStream(EncodeAll(ps) + t) == Prepend(ps, ParseStream(t))
  {
    if ps == [] {
      assert EncodeAll(ps) + t == t;
    } else {
      ParseFrames(ps[1..], t);
      ParseFrame(ps[0], EncodeAll(ps[1..]) + t);
      Associative(Encode(ps[0]), EncodeAll(ps[1..]), t);
      PrependTwice([ps[0]], ps[1..], ParseStream(t));
      assert ps == [ps[0]] + ps[1..];
    }
  }

  /** The decoder's view of the start of a frame that is not a valid packet. */
  lemma {:induction false} ParseBadFrame(p: Packet, t: Bytes)
    requires !Valid(p)
    ensures var s := Encode(p) + t; var r := ParseStream(s);
      if Wraps(p) then r.packets != [] else r == Parsed([], Refused(s))
  {
    hide HeaderBytes, DeserializeHeader, Encode;
    EncodeParts(p, t);
    DecodeHeaderBytes(WireHeader(p));
  }

  /** The valid prefix of any packet list comes out first. */
  lemma {:induction false} ParseOfGood(ps: seq<Packet>)
    ensures var good := ValidPrefix(ps);
      ParseStream(EncodeAll(ps)) == Prepend(NormaliseAll(good), ParseStream(EncodeAll(ps[|good|..])))
  {
    var good := ValidPrefix(ps);
    EncodeAllSplit(ps, |good|);
    NormaliseEncodesTheSame(good);
    assert good == ps[..|good|];
    ParseFrames(NormaliseAll(good), EncodeAll(ps[|good|..]));
  }

  /** What follows the valid prefix: nothing, a refused frame, or a misread one. */
  lemma {:induction false} ParseOfBad(ps: seq<Packet>)
    ensures var n := |ValidPrefix(ps)|; var s := EncodeAll(ps[n..]); var r := ParseStream(s);
      && (n == |ps| ==> r == Parsed([], Partial([])))
      && (n < |ps| ==> if Wraps(ps[n]) then r.packets != [] else r == Parsed([], Refused(s)))
  {
    var n := |ValidPrefix(ps)|;
    if n < |ps| {
      ParseBadFrame(ps[n], EncodeAll(ps[n..][1..]));
    }
  }

  /** The whole stream of any packet list: exactly the valid prefix comes out,
      and the parser stops at the first bad header, if and only if the first
      bad packet's length field has not wrapped. */
  lemma {:induction false} ParseOfSent(ps: seq<Packet>)
    ensures FirstBadIsRefused(ps) <==> ParseStream(EncodeAll(ps)).packets == NormaliseAll(ValidPrefix(ps))
    ensures FirstBadIsRefused(ps) ==>
      var n := |ValidPrefix(ps)|;
      ParseStream(EncodeAll(ps)).tail == if n == |ps| then Partial([]) else Refused(EncodeAll(ps[n..]))
  {
    ParseOfGood(ps);
    ParseOfBad(ps);
    var out := NormaliseAll(ValidPrefix(ps));
    assert out + [] == out;
  }

  lemma {:induction false} NormaliseEncodesTheSame(ps: seq<Packet>)
    requires forall p <- ps :: Valid(p)
    ensures EncodeAll(NormaliseAll(ps)) == EncodeAll(ps)
    ensures forall p <- NormaliseAll(ps) :: Canonical(p)
  {
    if ps != [] {
      NormaliseEncodesTheSame(ps[1..]);
      NormalisedIsCanonical(ps[0]);
      assert NormaliseAll(ps)[1..] == NormaliseAll(ps[1..]);
    }
    forall p <- NormaliseAll(ps) ensures Canonical(p) {
      var i :| 0 <= i < |ps| && p == NormaliseAll(ps)[i];
      assert ps[i] in ps;
    }
  }

  /** Round trip of a single packet, for every packet there is. */
  lemma RoundTrip(p: Packet)
    ensures ParseStream(Encode(p)) == Parsed([Normalised(p)], Partial([])) <==> Valid(p)
  {
    ParseOfSent([p]);
    assert EncodeAll([p]) == Encode(p) + [] == Encode(p);
    if Valid(p) {
      assert ValidPrefix([p]) == [p];
      assert NormaliseAll([p]) == [Normalised(p)];
    } else {
      ParseBadFrame(p, []);
      if Wraps(p) && ParseStream(Encode(p)).packets == [Normalised(p)] {
        ParseIsFaithful(Encode(p));
        assert Normalised(p) in ParseStream(Encode(p)).packets;
        NormalisedIsCanonical(p);
      }
    }
  }

  /** A payload of exactly 4 GiB announces length zero, so the receiver hands out an empty packet. */
  lemma WrappedLengthIsMisread(kind: Byte)
    ensures var p := MakePacket(kind, seq(U32_RANGE, _ => 0));
      && !FirstBadIsRefused([p])
      && |ParseStream(EncodeAll([p])).packets| > 0
      && ParseStream(EncodeAll([p])).packets[0] == MakePacket(kind, [])
  {
    var p := MakePacket(kind, seq(U32_RANGE, _ => 0));
    assert |p.payload| == U32_RANGE;
    assert EncodeAll([p]) == Encode(p) + [];
    var s := EncodeAll([p]);
    DecodeHeaderBytes(WireHeader(p));
    assert s[..HEADER_SIZE] == HeaderBytes(WireHeader(p));
    assert s[HEADER_SIZE..HEADER_SIZE] == [];
    assert ValidPrefix([p]) == [];
  }

  // ----- unique decodability ------------------------------------------------

  lemma Cancel<T>(a: seq<T>, b: seq<T>, c: seq<T>)
    requires a + b == a + c
    ensures b == c
  {
    assert b == (a + b)[|a|..];
    assert c == (a + c)[|a|..];
  }

  /** If the bytes of some decoded packets begin the bytes of some sent
      packets, the decoded ones are the first of the sent ones exactly as long
      as they are no more than the valid prefix. */
  lemma {:induction false} DecodedAgainstSent(ds: seq<Packet>, rest: Bytes, ps: seq<Packet>)
    requires forall d <- ds :: Canonical(d)
    requires EncodeAll(ds) + rest == EncodeAll(ps)
    ensures ds <= NormaliseAll(ps) <==> |ds| <= |ValidPrefix(ps)|
    ensures FirstBadIsRefused(ps) ==> |ds| <= |ValidPrefix(ps)|
  {
    hide Canonical, EncodeAll, Wraps;
    var good := ValidPrefix(ps);
    var n, all := |good|, ParseStream(EncodeAll(ps)).packets;
    ParseFrames(ds, rest);
    ParseOfGood(ps);
    ParseOfBad(ps);
    assert ds == all[..|ds|] && NormaliseAll(good) == all[..n];
    if |ds| <= n {
      assert NormaliseAll(ps)[..|ds|] == NormaliseAll(good)[..|ds|];
    } else {
      assert ds[n] in ds;
      assert Canonical(ds[n]) && !Valid(ps[n]);
      NormalisedIsCanonical(ps[n]);
    }
  }

  lemma NormaliseTake(ps: seq<Packet>, n: nat)
    requires n <= |ps|
    ensures NormaliseAll(ps[..n]) == NormaliseAll(ps)[..n]
  {
  }

  /** What follows decoded packets is what the packets not decoded yet wrote. */
  lemma {:induction false} RestIsUndecoded(ds: seq<Packet>, rest: Bytes, ps: seq<Packet>)
    requires EncodeAll(ds) + rest == EncodeAll(ps)
    requires |ds| <= |ValidPrefix(ps)| && ds == NormaliseAll(ps[..|ds|])
    ensures rest == EncodeAll(ps[|ds|..])
  {
    hide Valid, EncodeAll, NormaliseAll;
    var n := |ds|;
    forall p <- ps[..n] ensures Valid(p) {
      assert ps[..n] == ValidPrefix(ps)[..n];
      assert p in ValidPrefix(ps);
    }
    NormaliseEncodesTheSame(ps[..n]);
    EncodeAllSplit(ps, n);
    Cancel(EncodeAll(ds), rest, EncodeAll(ps[n..]));
  }

  /** The decoded packets are the first of the sent ones, one by one, and what is
      left of the stream is what the remaining packets wrote, exactly as long as
      they are no more than the valid prefix. */
  lemma {:induction false} DecodedArePrefix(ds: seq<Packet>, rest: Bytes, ps: seq<Packet>)
    requires forall d <- ds :: Canonical(d)
    requires EncodeAll(ds) + rest == EncodeAll(ps)
    ensures |ds| <= |ValidPrefix(ps)| <==> |ds| <= |ps| && ds == NormaliseAll(ps[..|ds|])
    ensures |ds| <= |ValidPrefix(ps)| ==> rest == EncodeAll(ps[|ds|..])
    ensures FirstBadIsRefused(ps) ==> |ds| <= |ValidPrefix(ps)|
  {
    hide Canonical, FirstBadIsRefused, EncodeAll, Valid;
    DecodedAgainstSent(ds, rest, ps);
    if |ds| <= |ps| {
      NormaliseTake(ps, |ds|);
    }
    if |ds| <= |ValidPrefix(ps)| {
      RestIsUndecoded(ds, rest, ps);
    }
  }

  lemma ParseOfValid(ps: seq<Packet>)
    requires forall p <- ps :: Valid(p)
    ensures ParseStream(EncodeAll(ps)) == Parsed(NormaliseAll(ps), Partial([]))
  {
    ParseOfSent(ps);
    assert ValidPrefix(ps) == ps;
  }

  /** Two lists of valid packets with the same bytes are the same packets. */
  lemma UniquelyDecodable(ps: seq<Packet>, qs: seq<Packet>)
    requires forall p <- ps :: Valid(p)
    requires forall q <- qs :: Valid(q)
    ensures EncodeAll(ps) == EncodeAll(qs) <==> NormaliseAll(ps) == NormaliseAll(qs)
  {
    ParseOfValid(ps);
    ParseOfValid(qs);
    NormaliseEncodesTheSame(ps);
    NormaliseEncodesTheSame(qs);
  }

  /** No valid frame is a proper prefix of another. */
  lemma PrefixFree(p: Packet, q: Packet)
    requires Valid(p) && Valid(q)
    requires Encode(p) <= Encode(q)
    ensures Normalised(p) == Normalised(q)
  {
    RoundTrip(q);
    NormalisedIsCanonical(p);
    var t := Encode(q)[|Encode(p)|..];
    ParseFrame(Normalised(p), t);
    assert Encode(p) + t == Encode(q);
  }

  /** Seeing less of a stream never yields packets the whole stream does not have. */
  lemma {:induction false} ParsePrefixMonotone(s: Bytes, t: Bytes)
    requires s <= t
    ensures ParseStream(s).packets <= ParseStream(t).packets
    ensures ParseStream(s).tail.Refused? ==>
      ParseStream(s).packets == ParseStream(t).packets && ParseStream(t).tail.Refused?
  {
    ParseAppend(s, t[|s|..]);
    assert t == s + t[|s|..];
  }
}
