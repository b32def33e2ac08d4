/** A document that fills its bound: the size a reader allows is no larger than it need be. */
module FullRoster {
  import opened Wrappers
  import opened Order
  import opened Names
  import opened Codec
  import opened Text
  import opened Roster

  // --- as many ids and names as are wanted, in order ---

  lemma {:induction false} LessLast(a: seq<int>, b: seq<int>, x: int, y: int)
    requires |a| == |b|
    ensures Less(a + [x], b + [y]) <==> Less(a, b) || (a == b && x < y)
  {
    if a != [] {
      assert (a + [x])[1..] == a[1..] + [x] && (b + [y])[1..] == b[1..] + [y];
      LessLast(a[1..], b[1..], x, y);
      assert a == [a[0]] + a[1..] && b == [b[0]] + b[1..];
    }
  }

  /** Numbers ascend as their bytes do. */
  lemma {:induction false} BigEndianRises(n: nat, width: nat)
    requires n + 1 < Pow256(width)
    ensures Less(BigEndian(n, width), BigEndian(n + 1, width))
  {
    LessLast(BigEndian(n / 256, width - 1), BigEndian((n + 1) / 256, width - 1), n % 256, (n + 1) % 256);
    if n % 256 == 255 {
      assert (n + 1) / 256 == n / 256 + 1;
      BigEndianRises(n / 256, width - 1);
    } else {
      assert (n + 1) / 256 == n / 256;
    }
  }

  lemma {:induction false} WideEnough(width: nat)
    requires width >= 2
    ensures Pow256(width) >= 0x1_0000
  {
    if width > 2 { WideEnough(width - 1); } else { Widths(); }
  }

  /** The longest ids, one for each number. */
  function LongIds(n: nat): seq<Id> { seq(n, (i: nat) => Id(0, BigEndian(i, MAX_REVOCATION_ID))) }

  lemma LongIdsStand(n: nat)
    requires n <= MAX_REVOKED
    ensures ValidList(IdShape(), None, LongIds(n)) && forall id :: id in LongIds(n) ==> FullId(id)
  {
    var ids := LongIds(n);
    forall i | 0 < i < n ensures Less(IdKey(ids[i - 1]), IdKey(ids[i])) {
      WideEnough(MAX_REVOCATION_ID);
      BigEndianRises(i - 1, MAX_REVOCATION_ID);
    }
    StrictFromIsStrict(None, ids, IdShape().key);
  }

  /** The longest names, one for each number. */
  function LongName(i: nat): string { "a" + ToHex(BigEndian(i, (MAX_LEN - 1) / 2)) }

  lemma {:induction false} HexNames(b: Bytes)
    ensures forall i :: 0 <= i < |ToHex(b)| ==> Lower(ToHex(b)[i]) || Digit(ToHex(b)[i])
  {
    if b != [] { HexNames(b[1..]); }
  }

  lemma LongNameStands(i: nat)
    ensures IsLabel(LongName(i)) && |LongName(i)| == MAX_LEN
  {
    var b := BigEndian(i, (MAX_LEN - 1) / 2);
    HexBack(b);
    HexNames(b);
  }

  lemma LongNamesDiffer(i: nat, j: nat)
    requires i < j < 0x1_0000
    ensures Codes(LongName(i)) != Codes(LongName(j))
  {
    var width := (MAX_LEN - 1) / 2;
    WideEnough(width);
    BigEndianInverse(i, width);
    BigEndianInverse(j, width);
    HexBack(BigEndian(i, width));
    HexBack(BigEndian(j, width));
    CodesDistinguish(LongName(i), LongName(j));
    assert LongName(i)[1..] == ToHex(BigEndian(i, width)) && LongName(j)[1..] == ToHex(BigEndian(j, width));
  }

  // --- the document ---

  /** As many usable keys as a list may hold, in order, and a standing of the longest. */
  ghost predicate Ample(f: Foreign, keys: seq<Bytes>, standing: Bytes) {
    && |keys| == MAX_MEMBERS == MAX_REVOKED_KEYS
    && (forall i :: 0 <= i < |keys| ==> IsKey(f, keys[i]))
    && Strict(keys, (key: Bytes) => key)
    && f.link(standing) && |standing| == MAX_BADGE
  }

  /** Where every 32 bytes are a key there are such. */
  lemma AmpleThere()
    ensures exists f: Foreign, keys: seq<Bytes>, standing: Bytes :: Ample(f, keys, standing)
  {
    var f := Foreign((_: Bytes) => true, (_: Bytes) => true);
    var keys: seq<Bytes> := seq(MAX_MEMBERS, (i: nat) => BigEndian(i, KEY_LEN));
    var standing: Bytes := seq(MAX_BADGE, (i: nat) => 0);
    forall i | 0 < i < |keys| ensures Less(keys[i - 1], keys[i]) {
      WideEnough(KEY_LEN);
      BigEndianRises(i - 1, KEY_LEN);
    }
    assert Ample(f, keys, standing);
  }

  function FullMembers(keys: seq<Bytes>, standing: Bytes): seq<Member> {
    seq(|keys|, i requires 0 <= i < |keys| => Member(keys[i], LongName(i), 0, 0, 0, LongIds(MAX_IDS), standing))
  }

  function FullDevices(keys: seq<Bytes>): seq<RevokedDevice> {
    seq(|keys|, i requires 0 <= i < |keys| => RevokedDevice(keys[i], LongName(i)))
  }

  function Full(keys: seq<Bytes>, standing: Bytes): Doc {
    Doc(1, FullMembers(keys, standing), LongIds(MAX_REVOKED), FullDevices(keys))
  }

  lemma FullMembersStand(f: Foreign, keys: seq<Bytes>, standing: Bytes)
    requires Ample(f, keys, standing)
    ensures var ms := FullMembers(keys, standing);
            && ValidList(MemberShape(f), None, ms) && Distinct(Map(NameOf, ms), Codes)
            && forall i :: 0 <= i < |ms| ==> FullMember(ms[i])
  {
    var ms, sh := FullMembers(keys, standing), MemberShape(f);
    LongIdsStand(MAX_IDS);
    forall i | 0 <= i < |ms| ensures sh.valid(ms[i]) && FullMember(ms[i]) { LongNameStands(i); }
    forall i | 0 < i < |ms| ensures Less(sh.key(ms[i - 1]), sh.key(ms[i])) { assert Less(keys[i - 1], keys[i]); }
    StrictFromIsStrict(None, ms, sh.key);
    forall i, j | 0 <= i < j < |ms| ensures Codes(Map(NameOf, ms)[i]) != Codes(Map(NameOf, ms)[j]) {
      LongNamesDiffer(i, j);
    }
  }

  lemma FullDevicesStand(f: Foreign, keys: seq<Bytes>, standing: Bytes)
    requires Ample(f, keys, standing)
    ensures var ds := FullDevices(keys);
            ValidList(DeviceShape(f), None, ds) && forall i :: 0 <= i < |ds| ==> |ds[i].name| == MAX_LEN
  {
    var ds, sh := FullDevices(keys), DeviceShape(f);
    forall i | 0 <= i < |ds| ensures sh.valid(ds[i]) && |ds[i].name| == MAX_LEN { LongNameStands(i); }
    forall i | 0 < i < |ds| ensures Less(sh.key(ds[i - 1]), sh.key(ds[i])) { assert Less(keys[i - 1], keys[i]); }
    StrictFromIsStrict(None, ds, sh.key);
  }

  /** The bound is met: wherever there are keys and a standing to fill it, a well-formed document, which its own
      bytes parse back to, takes it to the byte. */
  lemma BoundIsMet(f: Foreign, keys: seq<Bytes>, standing: Bytes)
    requires Ample(f, keys, standing)
    ensures var d := Full(keys, standing);
            ValidDoc(f, d) && Roster.Parse(f, Encode(f, d)) == Ok(d) && |Encode(f, d)| == MAX_ROSTER_BLOB - ENVELOPE_LEN
  {
    var d := Full(keys, standing);
    FullMembersStand(f, keys, standing);
    FullDevicesStand(f, keys, standing);
    LongIdsStand(MAX_REVOKED);
    assert FullDoc(d) by {
      forall i | 0 <= i < |d.revoked| ensures FullId(d.revoked[i]) { assert d.revoked[i] in d.revoked; }
    }
    SizeBound(f, d);
    ParseExact(f, Encode(f, d), d);
  }
}
