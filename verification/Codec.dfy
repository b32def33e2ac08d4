/** How each field of a signed update is spelled: what it looks like on the wire, a reader over
    untrusted bytes and a writer onto a growing buffer.

    `Enc` functions give a field's bytes; `Get` functions read a field off the front of some bytes and
    return the rest. Each reader's contract is its non-malleability: whatever it accepts is spelled one way. */
module Codec {
  import opened Wrappers
  import opened Order
  import opened Names

  type byte = x: int | 0 <= x < 256
  type Bytes = seq<byte>
  type u64 = x: int | 0 <= x < 0x1_0000_0000_0000_0000

  const MAX_MEMBERS := 4096
  const MAX_REVOKED := 16384
  const MAX_REVOKED_KEYS := 4096
  const MAX_REVOCATION_ID := 64
  const MAX_BADGE := 1024
  const MAX_IDS := 4
  const KEY_LEN := 32

  /** What nauthy decides: which 32 bytes are a usable key, and which bytes are the text of a bare link.
      A `VerifyKey` keeps its bytes, a `RevocationId` its bytes and a `Link` its text. */
  datatype Foreign = Foreign(key: Bytes -> bool, link: Bytes -> bool)

  datatype FormatError =
    | BadMagic
    | Truncated
    | BadLabel
    | BadStanding
    | BadKey
    | DuplicateNode(node: Bytes)
    | DuplicateLabel(name: string)
    | NonCanonicalOrder
    | TooLarge(field: string)

  datatype Id = Id(expires: u64, id: Bytes)
  datatype RevokedDevice = RevokedDevice(node: Bytes, name: string)

  /** A field and the bytes after it. */
  datatype Parsed<+T> = Parsed(value: T, rest: Bytes)
  type Got<+T> = Result<Parsed<T>, FormatError>

  function IdKey(id: Id): seq<int> { id.id }
  function DeviceKey(device: RevokedDevice): seq<int> { device.node }

  predicate ValidId(id: Id) { |id.id| <= MAX_REVOCATION_ID }

  predicate IsKey(f: Foreign, node: Bytes) { |node| == KEY_LEN && f.key(node) }

  predicate ValidDevice(f: Foreign, device: RevokedDevice) {
    IsKey(f, device.node) && IsLabel(device.name)
  }

  // --- integers ---

  /** The low `width` bytes of `n`, most significant first: a Rust cast, then `to_be_bytes`. */
  function BigEndian(n: nat, width: nat): (b: Bytes)
    ensures |b| == width
  {
    if width == 0 then [] else BigEndian(n / 256, width - 1) + [n % 256]
  }

  function FromBigEndian(b: Bytes): nat {
    if b == [] then 0 else FromBigEndian(b[..|b| - 1]) * 256 + b[|b| - 1]
  }

  function Pow256(k: nat): nat { if k == 0 then 1 else 256 * Pow256(k - 1) }

  lemma {:induction false} BigEndianInverse(n: nat, width: nat)
    ensures n < Pow256(width) ==> FromBigEndian(BigEndian(n, width)) == n
  {
    if width > 0 {
      BigEndianInverse(n / 256, width - 1);
      var b := BigEndian(n, width);
      assert b[..|b| - 1] == BigEndian(n / 256, width - 1);
    }
  }

  lemma {:induction false} FromBigEndianInverse(b: Bytes)
    ensures BigEndian(FromBigEndian(b), |b|) == b && FromBigEndian(b) < Pow256(|b|)
  {
    if b != [] {
      FromBigEndianInverse(b[..|b| - 1]);
      assert b == b[..|b| - 1] + [b[|b| - 1]];
    }
  }

  lemma Widths()
    ensures Pow256(1) == 0x100 && Pow256(2) == 0x1_0000
    ensures Pow256(4) == 0x1_0000_0000 && Pow256(8) == 0x1_0000_0000_0000_0000
  {
    assert Pow256(0) == 1 && Pow256(1) == 256 && Pow256(2) == 65536 && Pow256(3) == 16777216;
    assert Pow256(4) == 0x1_0000_0000 && Pow256(5) == 0x100_0000_0000 && Pow256(6) == 0x1_0000_0000_0000;
    assert Pow256(7) == 0x100_0000_0000_0000;
  }

  // --- the wire form of each field ---

  predicate IsAscii(text: string) { forall i :: 0 <= i < |text| ==> text[i] as int < 128 }

  /** ASCII text as bytes. */
  function Ascii(text: string): (b: Bytes)
    ensures |b| == |text|
  {
    seq(|text|, i requires 0 <= i < |text| => text[i] as int % 256)
  }

  function Chars(b: Bytes): (text: string)
    requires forall i :: 0 <= i < |b| ==> b[i] < 128
    ensures IsAscii(text) && Ascii(text) == b
  {
    seq(|b|, i requires 0 <= i < |b| => b[i] as char)
  }

  lemma CharsAscii(text: string)
    requires IsAscii(text)
    ensures (forall i :: 0 <= i < |text| ==> Ascii(text)[i] < 128) && Chars(Ascii(text)) == text
  {}

  lemma LabelIsAscii(name: string)
    requires IsLabel(name)
    ensures IsAscii(name) && |name| <= MAX_LEN
  {}

  function EncBytes16(b: Bytes): Bytes { BigEndian(|b|, 2) + b }

  function EncId(id: Id): Bytes { BigEndian(id.expires, 8) + EncBytes16(id.id) }

  function EncLabel(name: string): Bytes { EncBytes16(Ascii(name)) }

  function EncDevice(device: RevokedDevice): Bytes { device.node + EncLabel(device.name) }

  // --- reading a field off the front ---

  function Bound(len: nat, max: nat, field: string): Result<(), FormatError> {
    if len > max then Err(TooLarge(field)) else Ok(())
  }

  function GetTake(b: Bytes, n: nat): (r: Got<Bytes>)
    ensures r.Ok? ==> |r.value.value| == n && b == r.value.value + r.value.rest
  {
    if n <= |b| then Ok(Parsed(b[..n], b[n..])) else Err(Truncated)
  }

  function GetUint(b: Bytes, width: nat): (r: Got<nat>)
    ensures r.Ok? ==> r.value.value < Pow256(width) && b == BigEndian(r.value.value, width) + r.value.rest
  {
    var p :- GetTake(b, width);
    FromBigEndianInverse(p.value);
    Ok(Parsed(FromBigEndian(p.value), p.rest))
  }

  function GetU64(b: Bytes): (r: Got<u64>)
    ensures r.Ok? ==> b == BigEndian(r.value.value, 8) + r.value.rest
  {
    Widths();
    var p :- GetUint(b, 8);
    Ok(Parsed(p.value, p.rest))
  }

  function GetCount(b: Bytes, width: nat, max: nat, field: string): (r: Got<nat>)
    ensures r.Ok? ==> r.value.value <= max && b == BigEndian(r.value.value, width) + r.value.rest
  {
    var p :- GetUint(b, width);
    var _ :- Bound(p.value, max, field);
    Ok(p)
  }

  function GetKey(f: Foreign, b: Bytes): (r: Got<Bytes>)
    ensures r.Ok? ==> IsKey(f, r.value.value) && b == r.value.value + r.value.rest
  {
    var p :- GetTake(b, KEY_LEN);
    if f.key(p.value) then Ok(p) else Err(BadKey)
  }

  /** A `u16` length and that many bytes. */
  function GetBytes16(b: Bytes): (r: Got<Bytes>)
    ensures r.Ok? ==> b == EncBytes16(r.value.value) + r.value.rest
  {
    var n :- GetUint(b, 2);
    var p :- GetTake(n.rest, n.value);
    assert BigEndian(n.value, 2) + (p.value + p.rest) == (BigEndian(n.value, 2) + p.value) + p.rest;
    Ok(p)
  }

  /** The same, its length bounded before anything is taken. */
  function GetBounded16(b: Bytes, max: nat, field: string): (r: Got<Bytes>)
    ensures r.Ok? ==> |r.value.value| <= max && b == EncBytes16(r.value.value) + r.value.rest
  {
    var n :- GetUint(b, 2);
    var _ :- Bound(n.value, max, field);
    var p :- GetTake(n.rest, n.value);
    assert BigEndian(n.value, 2) + (p.value + p.rest) == (BigEndian(n.value, 2) + p.value) + p.rest;
    Ok(p)
  }

  /** The stored name some bytes spell: bytes outside ASCII spell none, in UTF-8 or out of it. */
  function LabelOf(b: Bytes): (r: Result<string, FormatError>)
    ensures r.Ok? ==> IsLabel(r.value) && EncBytes16(b) == EncLabel(r.value)
  {
    if forall i :: 0 <= i < |b| ==> b[i] < 128 then
      StoredLabelExact(Chars(b));
      match StoredLabel(Chars(b))
      case Err(_) => Err(BadLabel)
      case Ok(name) => Ok(name)
    else Err(BadLabel)
  }

  function GetLabel(b: Bytes): (r: Got<string>)
    ensures r.Ok? ==> IsLabel(r.value.value) && b == EncLabel(r.value.value) + r.value.rest
  {
    var p :- GetBytes16(b);
    var name :- LabelOf(p.value);
    Ok(Parsed(name, p.rest))
  }

  function GetStanding(f: Foreign, b: Bytes): (r: Got<Bytes>)
    ensures r.Ok? ==>
              && |r.value.value| <= MAX_BADGE
              && f.link(r.value.value)
              && b == EncBytes16(r.value.value) + r.value.rest
  {
    var p :- GetBounded16(b, MAX_BADGE, "standing");
    if f.link(p.value) then Ok(p) else Err(BadStanding)
  }

  function GetId(b: Bytes): (r: Got<Id>)
    ensures r.Ok? ==> ValidId(r.value.value) && b == EncId(r.value.value) + r.value.rest
  {
    var e :- GetU64(b);
    var p :- GetBounded16(e.rest, MAX_REVOCATION_ID, "revocation id");
    assert BigEndian(e.value, 8) + (EncBytes16(p.value) + p.rest)
        == (BigEndian(e.value, 8) + EncBytes16(p.value)) + p.rest;
    Ok(Parsed(Id(e.value, p.value), p.rest))
  }

  /** Refuse a key that does not come strictly after the one before it. */
  function Follows(previous: Option<seq<int>>, key: seq<int>): Result<(), FormatError> {
    if previous.Some? && !Less(previous.value, key) then Err(NonCanonicalOrder) else Ok(())
  }

  /** One id of a list, refused when it does not come after the one before it. */
  function GetNextId(previous: Option<seq<int>>, b: Bytes): Got<Id> {
    var p :- GetId(b);
    var _ :- Follows(previous, p.value.id);
    Ok(p)
  }

  /** One revoked device of a list: its key, held against the one before it, then its name. */
  function GetNextDevice(f: Foreign, previous: Option<seq<int>>, b: Bytes): Got<RevokedDevice> {
    var k :- GetKey(f, b);
    var _ :- Follows(previous, k.value);
    var l :- GetLabel(k.rest);
    Ok(Parsed(RevokedDevice(k.value, l.value), l.rest))
  }

  // --- counted lists, strictly ascending by key ---

  /** One kind of entry: how the next is read, its key, its bytes, and which values are entries at all. */
  datatype Shape<!T> = Shape(
    next: (Option<seq<int>>, Bytes) -> Got<T>,
    key: T -> seq<int>,
    enc: T -> Bytes,
    valid: T -> bool)

  function IdShape(): Shape<Id> { Shape(GetNextId, IdKey, EncId, ValidId) }

  function DeviceShape(f: Foreign): Shape<RevokedDevice> {
    Shape((p, b) => GetNextDevice(f, p, b), DeviceKey, EncDevice, d => ValidDevice(f, d))
  }

  /** A list read so far, put ahead of what reading on gives. */
  function Ahead<T>(xs: seq<T>, r: Got<seq<T>>): Got<seq<T>> {
    match r
    case Ok(p) => Ok(Parsed(xs + p.value, p.rest))
    case Err(e) => Err(e)
  }

  lemma AheadNone<T>(r: Got<seq<T>>)
    ensures Ahead([], r) == r
  {
    if r.Ok? { assert [] + r.value.value == r.value.value; }
  }

  function EncList<T>(sh: Shape<T>, s: seq<T>): Bytes {
    if s == [] then [] else sh.enc(s[0]) + EncList(sh, s[1..])
  }

  /** A `u32` count, then the entries. */
  function Counted<T>(sh: Shape<T>, s: seq<T>): Bytes { BigEndian(|s|, 4) + EncList(sh, s) }

  /** `count` entries, the first after `previous`. */
  function GetList<T>(sh: Shape<T>, count: nat, previous: Option<seq<int>>, b: Bytes): Got<seq<T>>
    decreases count
  {
    if count == 0 then Ok(Parsed([], b))
    else
      var p :- sh.next(previous, b);
      Ahead([p.value], GetList(sh, count - 1, Some(sh.key(p.value)), p.rest))
  }

  /** The key of the last entry read, which the next must come after. */
  function LastKey<T>(xs: seq<T>, key: T -> seq<int>): Option<seq<int>> {
    if xs == [] then None else Some(key(xs[|xs| - 1]))
  }

  /** A reading loop part way: what it has read, ahead of what is still to come, is the whole list. */
  ghost predicate Reading<T>(sh: Shape<T>, whole: Got<seq<T>>, xs: seq<T>, left: nat, b: Bytes) {
    whole == Ahead(xs, GetList(sh, left, LastKey(xs, sh.key), b))
  }

  lemma ReadingStart<T>(sh: Shape<T>, count: nat, b: Bytes)
    ensures Reading(sh, GetList(sh, count, None, b), [], count, b)
  {
    AheadNone(GetList(sh, count, None, b));
  }

  /** One turn: an entry more, or the loop's error is the list's. */
  lemma ListTurn<T>(sh: Shape<T>, whole: Got<seq<T>>, xs: seq<T>, left: nat, b: Bytes)
    requires left > 0 && Reading(sh, whole, xs, left, b)
    ensures match sh.next(LastKey(xs, sh.key), b)
            case Err(e) => whole == Err(e)
            case Ok(p) => Reading(sh, whole, xs + [p.value], left - 1, p.rest)
  {
    var r := sh.next(LastKey(xs, sh.key), b);
    if r.Ok? {
      var x := r.value.value;
      var on := GetList(sh, left - 1, Some(sh.key(x)), r.value.rest);
      if on.Ok? { assert xs + ([x] + on.value.value) == (xs + [x]) + on.value.value; }
    }
  }

  lemma ReadingEnd<T>(sh: Shape<T>, whole: Got<seq<T>>, xs: seq<T>, b: Bytes)
    requires Reading(sh, whole, xs, 0, b)
    ensures whole == Ok(Parsed(xs, b))
  {
    assert xs + [] == xs;
  }

  /** A list as a document may hold it: every entry valid, strictly ascending. */
  predicate ValidList<T>(sh: Shape<T>, previous: Option<seq<int>>, s: seq<T>) {
    (forall i :: 0 <= i < |s| ==> sh.valid(s[i])) && StrictFrom(previous, s, sh.key)
  }

  ghost predicate Sound<T>(sh: Shape<T>, previous: Option<seq<int>>, b: Bytes) {
    sh.next(previous, b).Ok? ==>
      var p := sh.next(previous, b).value;
      && sh.valid(p.value)
      && b == sh.enc(p.value) + p.rest
      && (previous.Some? ==> Less(previous.value, sh.key(p.value)))
  }

  ghost predicate Complete<T>(sh: Shape<T>, previous: Option<seq<int>>, v: T, rest: Bytes) {
    sh.valid(v) && (previous.Some? ==> Less(previous.value, sh.key(v))) ==>
      sh.next(previous, sh.enc(v) + rest) == Ok(Parsed(v, rest))
  }

  /** Reading and writing one entry undo each other. */
  ghost predicate Exact<T(!new)>(sh: Shape<T>) {
    && (forall previous, b :: Sound(sh, previous, b))
    && (forall previous, v, rest :: Complete(sh, previous, v, rest))
  }

  /** An accepted list is valid and is spelled exactly as it is written. */
  lemma {:induction false} ListSound<T(!new)>(sh: Shape<T>, count: nat, previous: Option<seq<int>>, b: Bytes)
    requires Exact(sh) && GetList(sh, count, previous, b).Ok?
    ensures var p := GetList(sh, count, previous, b).value;
            |p.value| == count && ValidList(sh, previous, p.value) && b == EncList(sh, p.value) + p.rest
    decreases count
  {
    if count > 0 {
      assert Sound(sh, previous, b);
      var p := sh.next(previous, b).value;
      ListSound(sh, count - 1, Some(sh.key(p.value)), p.rest);
      var q := GetList(sh, count - 1, Some(sh.key(p.value)), p.rest).value;
      var all := [p.value] + q.value;
      assert GetList(sh, count, previous, b).value == Parsed(all, q.rest);
      assert all[1..] == q.value;
      assert sh.enc(p.value) + (EncList(sh, q.value) + q.rest) == EncList(sh, all) + q.rest;
    }
  }

  /** A valid list reads back, whatever follows it. */
  lemma {:induction false} ListBack<T(!new)>(sh: Shape<T>, s: seq<T>, previous: Option<seq<int>>, rest: Bytes)
    requires Exact(sh) && ValidList(sh, previous, s)
    ensures GetList(sh, |s|, previous, EncList(sh, s) + rest) == Ok(Parsed(s, rest))
    decreases |s|
  {
    if s == [] {
      assert EncList(sh, s) + rest == rest;
    } else {
      var tail := EncList(sh, s[1..]) + rest;
      assert EncList(sh, s) + rest == sh.enc(s[0]) + tail;
      assert Complete(sh, previous, s[0], tail);
      ListBack(sh, s[1..], Some(sh.key(s[0])), rest);
      assert [s[0]] + s[1..] == s;
    }
  }

  lemma {:induction false} ListLen<T>(sh: Shape<T>, s: seq<T>, each: nat)
    requires forall i :: 0 <= i < |s| ==> |sh.enc(s[i])| <= each
    ensures |EncList(sh, s)| <= |s| * each
  {
    if s != [] {
      ListLen(sh, s[1..], each);
      assert |s| * each == (|s| - 1) * each + each;
    }
  }

  lemma {:induction false} ListLenFull<T>(sh: Shape<T>, s: seq<T>, each: nat)
    requires forall i :: 0 <= i < |s| ==> |sh.enc(s[i])| == each
    ensures |EncList(sh, s)| == |s| * each
  {
    if s != [] {
      ListLenFull(sh, s[1..], each);
      assert |s| * each == (|s| - 1) * each + each;
    }
  }

  lemma {:induction false} EncListAppend<T>(sh: Shape<T>, s: seq<T>, v: T)
    ensures EncList(sh, s + [v]) == EncList(sh, s) + sh.enc(v)
  {
    if s != [] {
      assert (s + [v])[1..] == s[1..] + [v];
      EncListAppend(sh, s[1..], v);
    } else {
      assert (s + [v])[1..] == [];
    }
  }

  // --- what is written reads back ---

  lemma TakeBack(a: Bytes, rest: Bytes)
    ensures GetTake(a + rest, |a|) == Ok(Parsed(a, rest))
  {
    assert (a + rest)[..|a|] == a && (a + rest)[|a|..] == rest;
  }

  lemma UintBack(n: nat, width: nat, rest: Bytes)
    requires n < Pow256(width)
    ensures GetUint(BigEndian(n, width) + rest, width) == Ok(Parsed(n, rest))
  {
    BigEndianInverse(n, width);
    TakeBack(BigEndian(n, width), rest);
  }

  lemma U64Back(n: u64, rest: Bytes)
    ensures GetU64(BigEndian(n, 8) + rest) == Ok(Parsed(n, rest))
  {
    Widths();
    UintBack(n, 8, rest);
  }

  lemma Bytes16Back(b: Bytes, rest: Bytes, max: nat, field: string)
    requires |b| < 0x1_0000
    ensures GetBytes16(EncBytes16(b) + rest) == Ok(Parsed(b, rest))
    ensures |b| <= max ==> GetBounded16(EncBytes16(b) + rest, max, field) == Ok(Parsed(b, rest))
  {
    Widths();
    assert EncBytes16(b) + rest == BigEndian(|b|, 2) + (b + rest);
    UintBack(|b|, 2, b + rest);
    TakeBack(b, rest);
  }

  lemma LabelBack(name: string, rest: Bytes)
    requires IsLabel(name)
    ensures GetLabel(EncLabel(name) + rest) == Ok(Parsed(name, rest))
  {
    LabelIsAscii(name);
    CharsAscii(name);
    StoredLabelExact(name);
    Bytes16Back(Ascii(name), rest, 0, "");
  }

  lemma StandingBack(f: Foreign, standing: Bytes, rest: Bytes)
    requires |standing| <= MAX_BADGE && f.link(standing)
    ensures GetStanding(f, EncBytes16(standing) + rest) == Ok(Parsed(standing, rest))
  {
    Bytes16Back(standing, rest, MAX_BADGE, "standing");
  }

  lemma KeyBack(f: Foreign, node: Bytes, rest: Bytes)
    requires IsKey(f, node)
    ensures GetKey(f, node + rest) == Ok(Parsed(node, rest))
  {}

  lemma CountBack(n: nat, width: nat, max: nat, field: string, rest: Bytes)
    requires n <= max && n < Pow256(width)
    ensures GetCount(BigEndian(n, width) + rest, width, max, field) == Ok(Parsed(n, rest))
  {}

  lemma IdBack(id: Id, rest: Bytes)
    requires ValidId(id)
    ensures GetId(EncId(id) + rest) == Ok(Parsed(id, rest))
  {
    assert EncId(id) + rest == BigEndian(id.expires, 8) + (EncBytes16(id.id) + rest);
    U64Back(id.expires, EncBytes16(id.id) + rest);
    Bytes16Back(id.id, rest, MAX_REVOCATION_ID, "revocation id");
  }

  lemma IdShapeExact()
    ensures Exact(IdShape())
  {
    var sh := IdShape();
    forall previous, b ensures Sound(sh, previous, b) {}
    forall previous, v, rest ensures Complete(sh, previous, v, rest) {
      if ValidId(v) { IdBack(v, rest); }
    }
  }

  lemma DeviceBack(f: Foreign, device: RevokedDevice, previous: Option<seq<int>>, rest: Bytes)
    requires ValidDevice(f, device) && (previous.Some? ==> Less(previous.value, device.node))
    ensures GetNextDevice(f, previous, EncDevice(device) + rest) == Ok(Parsed(device, rest))
  {
    assert EncDevice(device) + rest == device.node + (EncLabel(device.name) + rest);
    KeyBack(f, device.node, EncLabel(device.name) + rest);
    LabelBack(device.name, rest);
  }

  lemma DeviceSound(f: Foreign, previous: Option<seq<int>>, b: Bytes)
    requires GetNextDevice(f, previous, b).Ok?
    ensures var p := GetNextDevice(f, previous, b).value;
            && ValidDevice(f, p.value)
            && b == EncDevice(p.value) + p.rest
            && (previous.Some? ==> Less(previous.value, p.value.node))
  {}

  lemma DeviceShapeExact(f: Foreign)
    ensures Exact(DeviceShape(f))
  {
    var sh := DeviceShape(f);
    forall previous, b ensures Sound(sh, previous, b) {
      if GetNextDevice(f, previous, b).Ok? { DeviceSound(f, previous, b); }
    }
    forall previous, v, rest ensures Complete(sh, previous, v, rest) {
      if ValidDevice(f, v) && (previous.Some? ==> Less(previous.value, v.node)) { DeviceBack(f, v, previous, rest); }
    }
  }

  /** One turn of each reading loop. */
  lemma IdTurn(whole: Got<seq<Id>>, ids: seq<Id>, left: nat, b: Bytes)
    requires left > 0 && Reading(IdShape(), whole, ids, left, b)
    ensures match GetNextId(LastKey(ids, IdKey), b)
            case Err(e) => whole == Err(e)
            case Ok(p) => Reading(IdShape(), whole, ids + [p.value], left - 1, p.rest)
  {
    ListTurn(IdShape(), whole, ids, left, b);
  }

  lemma DeviceTurn(f: Foreign, whole: Got<seq<RevokedDevice>>, devices: seq<RevokedDevice>, left: nat, b: Bytes)
    requires left > 0 && Reading(DeviceShape(f), whole, devices, left, b)
    ensures match GetNextDevice(f, LastKey(devices, DeviceKey), b)
            case Err(e) => whole == Err(e)
            case Ok(p) => Reading(DeviceShape(f), whole, devices + [p.value], left - 1, p.rest)
  {
    ListTurn(DeviceShape(f), whole, devices, left, b);
  }

  // --- the bounds ---

  const MAX_ID_LEN := 8 + 2 + MAX_REVOCATION_ID
  const MAX_REVOKED_DEVICE_LEN := KEY_LEN + 2 + MAX_LEN

  // --- the writer: fields appended to a buffer ---

  class Buffer {
    var bytes: Bytes

    constructor ()
      ensures bytes == []
    {
      bytes := [];
    }

    method Extend(b: Bytes)
      modifies this
      ensures bytes == old(bytes) + b
    {
      bytes := bytes + b;
    }

    /** `(value as u8)`, `(value as u16).to_be_bytes()` and the wider ones: the cast keeps the low bytes. */
    method PutUint(value: nat, width: nat)
      modifies this
      ensures bytes == old(bytes) + BigEndian(value, width)
    {
      bytes := bytes + BigEndian(value, width);
    }

    method PutBytes16(b: Bytes)
      modifies this
      ensures bytes == old(bytes) + EncBytes16(b)
    {
      PutUint(|b|, 2);
      Extend(b);
    }

    method PutId(id: Id)
      modifies this
      ensures bytes == old(bytes) + EncId(id)
    {
      PutUint(id.expires, 8);
      PutBytes16(id.id);
    }

    method PutIds(ids: seq<Id>)
      modifies this
      ensures bytes == old(bytes) + EncList(IdShape(), ids)
    {
      for i := 0 to |ids|
        invariant bytes == old(bytes) + EncList(IdShape(), ids[..i])
      {
        EncListAppend(IdShape(), ids[..i], ids[i]);
        assert ids[..i + 1] == ids[..i] + [ids[i]];
        PutId(ids[i]);
      }
      assert ids[..|ids|] == ids;
    }

    method PutIds32(ids: seq<Id>)
      modifies this
      ensures bytes == old(bytes) + Counted(IdShape(), ids)
    {
      ghost var start := bytes;
      PutUint(|ids|, 4);
      PutIds(ids);
      assert bytes == (start + BigEndian(|ids|, 4)) + EncList(IdShape(), ids);
    }

    method PutLabel(name: string)
      modifies this
      ensures bytes == old(bytes) + EncLabel(name)
    {
      PutBytes16(Ascii(name));
    }

    method PutRevoked32(f: Foreign, devices: seq<RevokedDevice>)
      modifies this
      ensures bytes == old(bytes) + Counted(DeviceShape(f), devices)
    {
      ghost var start := bytes;
      PutUint(|devices|, 4);
      PutDevices(f, devices);
      assert bytes == (start + BigEndian(|devices|, 4)) + EncList(DeviceShape(f), devices);
    }

    method PutDevices(f: Foreign, devices: seq<RevokedDevice>)
      modifies this
      ensures bytes == old(bytes) + EncList(DeviceShape(f), devices)
    {
      for i := 0 to |devices|
        invariant bytes == old(bytes) + EncList(DeviceShape(f), devices[..i])
      {
        EncListAppend(DeviceShape(f), devices[..i], devices[i]);
        assert devices[..i + 1] == devices[..i] + [devices[i]];
        Extend(devices[i].node);
        PutLabel(devices[i].name);
      }
      assert devices[..|devices|] == devices;
    }
  }

  // --- the reader: a cursor over untrusted bytes ---

  /** A reader's answer beside what it left unread, to hold against a `Get` function. */
  ghost function Seen<T>(r: Result<T, FormatError>, rest: Bytes): Got<T> {
    match r
    case Ok(v) => Ok(Parsed(v, rest))
    case Err(e) => Err(e)
  }

  class Reader {
    const bytes: Bytes
    const foreign: Foreign
    var cur: nat

    ghost predicate Valid()
      reads this
    {
      cur <= |bytes|
    }

    ghost function Rest(): Bytes
      reads this
      requires Valid()
    {
      bytes[cur..]
    }

    constructor (b: Bytes, f: Foreign)
      ensures Valid() && Rest() == b && foreign == f
    {
      bytes, foreign, cur := b, f, 0;
    }

    method Take(n: nat) returns (r: Result<Bytes, FormatError>)
      requires Valid()
      modifies this
      ensures Valid() && Seen(r, Rest()) == GetTake(old(Rest()), n)
    {
      var end := cur + n;
      if end > |bytes| { return Err(Truncated); }
      assert bytes[cur..][..n] == bytes[cur..end] && bytes[cur..][n..] == bytes[end..];
      r := Ok(bytes[cur..end]);
      cur := end;
    }

    method Uint(width: nat) returns (r: Result<nat, FormatError>)
      requires Valid()
      modifies this
      ensures Valid() && Seen(r, Rest()) == GetUint(old(Rest()), width)
    {
      var b :- Take(width);
      r := Ok(FromBigEndian(b));
    }

    method U64() returns (r: Result<u64, FormatError>)
      requires Valid()
      modifies this
      ensures Valid() && Seen(r, Rest()) == GetU64(old(Rest()))
    {
      Widths();
      var n :- Uint(8);
      r := Ok(n);
    }

    /** A count, refused over its bound before anything is allocated for it. */
    method Count(width: nat, max: nat, field: string) returns (r: Result<nat, FormatError>)
      requires Valid()
      modifies this
      ensures Valid() && Seen(r, Rest()) == GetCount(old(Rest()), width, max, field)
    {
      var n :- Uint(width);
      var _ :- Bound(n, max, field);
      r := Ok(n);
    }

    method Key() returns (r: Result<Bytes, FormatError>)
      requires Valid()
      modifies this
      ensures Valid() && Seen(r, Rest()) == GetKey(foreign, old(Rest()))
    {
      var b :- Take(KEY_LEN);
      r := if foreign.key(b) then Ok(b) else Err(BadKey);
    }

    method Label() returns (r: Result<string, FormatError>)
      requires Valid()
      modifies this
      ensures Valid() && Seen(r, Rest()) == GetLabel(old(Rest()))
    {
      var len :- Uint(2);
      var b :- Take(len);
      r := LabelOf(b);
    }

    method Standing() returns (r: Result<Bytes, FormatError>)
      requires Valid()
      modifies this
      ensures Valid() && Seen(r, Rest()) == GetStanding(foreign, old(Rest()))
    {
      var len :- Uint(2);
      var _ :- Bound(len, MAX_BADGE, "standing");
      var b :- Take(len);
      r := if foreign.link(b) then Ok(b) else Err(BadStanding);
    }

    /** One id, then its place in the list. */
    method NextId(previous: Option<seq<int>>) returns (r: Result<Id, FormatError>)
      requires Valid()
      modifies this
      ensures Valid() && Seen(r, Rest()) == GetNextId(previous, old(Rest()))
    {
      var expires :- U64();
      var len :- Uint(2);
      var _ :- Bound(len, MAX_REVOCATION_ID, "revocation id");
      var b :- Take(len);
      var _ :- Follows(previous, b);
      r := Ok(Id(expires, b));
    }

    method Ids(count: nat) returns (r: Result<seq<Id>, FormatError>)
      requires Valid()
      modifies this
      ensures Valid() && Seen(r, Rest()) == GetList(IdShape(), count, None, old(Rest()))
    {
      ghost var sh, whole := IdShape(), GetList(IdShape(), count, None, Rest());
      var ids: seq<Id> := [];
      ReadingStart(sh, count, Rest());
      for i := 0 to count
        invariant Valid() && Reading(sh, whole, ids, count - i, Rest())
      {
        IdTurn(whole, ids, count - i, Rest());
        var id :- NextId(LastKey(ids, IdKey));
        ids := ids + [id];
      }
      ReadingEnd(sh, whole, ids, Rest());
      r := Ok(ids);
    }

    method NextDevice(previous: Option<seq<int>>) returns (r: Result<RevokedDevice, FormatError>)
      requires Valid()
      modifies this
      ensures Valid() && Seen(r, Rest()) == GetNextDevice(foreign, previous, old(Rest()))
    {
      var node :- Key();
      var _ :- Follows(previous, node);
      var name :- Label();
      r := Ok(RevokedDevice(node, name));
    }

    method RevokedDevices(count: nat) returns (r: Result<seq<RevokedDevice>, FormatError>)
      requires Valid()
      modifies this
      ensures Valid() && Seen(r, Rest()) == GetList(DeviceShape(foreign), count, None, old(Rest()))
    {
      ghost var sh, whole := DeviceShape(foreign), GetList(DeviceShape(foreign), count, None, Rest());
      var devices: seq<RevokedDevice> := [];
      ReadingStart(sh, count, Rest());
      for i := 0 to count
        invariant Valid() && Reading(sh, whole, devices, count - i, Rest())
      {
        DeviceTurn(foreign, whole, devices, count - i, Rest());
        var device :- NextDevice(LastKey(devices, DeviceKey));
        devices := devices + [device];
      }
      ReadingEnd(sh, whole, devices, Rest());
      r := Ok(devices);
    }
  }
}
