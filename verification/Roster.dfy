/** What a root signs: a document of live devices and revocations, the one way to build it, and the one byte
    string that spells it. */
module Roster {
  import opened Wrappers
  import opened Order
  import opened Names
  import opened Codec

  const MAGIC: Bytes := Ascii("swoosh-roster")
  const VERSION: byte := 1

  datatype Member = Member(
    node: Bytes, name: string, until: u64, duration: u64, inviteUntil: u64, ids: seq<Id>, standing: Bytes)

  datatype Doc = Doc(
    epoch: u64, members: seq<Member>, revoked: seq<Id>, revokedDevices: seq<RevokedDevice>)

  function MemberKey(m: Member): seq<int> { m.node }
  function NameOf(m: Member): string { m.name }

  /** What the types of the source already promise of a member, before any check. */
  predicate Typed(f: Foreign, m: Member) { IsKey(f, m.node) && IsLabel(m.name) && f.link(m.standing) }

  predicate ValidMember(f: Foreign, m: Member) {
    && Typed(f, m)
    && |m.ids| <= MAX_IDS
    && ValidList(IdShape(), None, m.ids)
    && |m.standing| <= MAX_BADGE
  }

  /** A well-formed document: no list past its bound, each strictly ascending, and no live name twice. */
  predicate ValidDoc(f: Foreign, d: Doc) {
    && |d.members| <= MAX_MEMBERS
    && |d.revoked| <= MAX_REVOKED
    && |d.revokedDevices| <= MAX_REVOKED_KEYS
    && ValidList(MemberShape(f), None, d.members)
    && Distinct(Map(NameOf, d.members), Codes)
    && ValidList(IdShape(), None, d.revoked)
    && ValidList(DeviceShape(f), None, d.revokedDevices)
  }

  // --- the encoding ---

  function EncMember(m: Member): Bytes {
    m.node + (EncLabel(m.name) + (BigEndian(m.until, 8) + (BigEndian(m.duration, 8) + (BigEndian(m.inviteUntil, 8) +
    (BigEndian(|m.ids|, 1) + (EncList(IdShape(), m.ids) + EncBytes16(m.standing)))))))
  }

  function Encode(f: Foreign, d: Doc): Bytes {
    MAGIC + ([VERSION] + (BigEndian(d.epoch, 8) + (Counted(MemberShape(f), d.members) +
    (Counted(IdShape(), d.revoked) + Counted(DeviceShape(f), d.revokedDevices)))))
  }

  // --- the parser ---

  function GetNextMember(f: Foreign, previous: Option<seq<int>>, b: Bytes): Got<Member> {
    var node :- GetKey(f, b);
    var _ :- Follows(previous, node.value);
    var name :- GetLabel(node.rest);
    var until :- GetU64(name.rest);
    var duration :- GetU64(until.rest);
    var inviteUntil :- GetU64(duration.rest);
    var count :- GetCount(inviteUntil.rest, 1, MAX_IDS, "ids");
    var ids :- GetList(IdShape(), count.value, None, count.rest);
    var standing :- GetStanding(f, ids.rest);
    Ok(Parsed(
         Member(node.value, name.value, until.value, duration.value, inviteUntil.value, ids.value, standing.value),
         standing.rest))
  }

  function MemberShape(f: Foreign): Shape<Member> {
    Shape((p, b) => GetNextMember(f, p, b), MemberKey, EncMember, m => ValidMember(f, m))
  }

  /** A reader past the magic and the version, whatever is wrong with them the same refusal. */
  function GetOpen(b: Bytes): Got<()> {
    var head := GetTake(b, |MAGIC|);
    if head.Err? then Err(BadMagic)
    else
      var found := GetUint(head.value.rest, 1);
      if found.Err? || head.value.value != MAGIC || found.value.value != VERSION then Err(BadMagic)
      else Ok(Parsed((), found.value.rest))
  }

  /** Sort the names and look for two neighbours alike. */
  function UniqueLabels(names: seq<string>): Result<(), FormatError> {
    match FirstRepeat(SortBy(names, Codes), Codes)
    case Some(name) => Err(DuplicateLabel(name))
    case None => Ok(())
  }

  function GetCounted<T>(sh: Shape<T>, max: nat, field: string, b: Bytes): Got<seq<T>> {
    var count :- GetCount(b, 4, max, field);
    GetList(sh, count.value, None, count.rest)
  }

  /** Everything up to the check for trailing bytes. */
  function GetDoc(f: Foreign, b: Bytes): Got<Doc> {
    var open :- GetOpen(b);
    var epoch :- GetU64(open.rest);
    var members :- GetCounted(MemberShape(f), MAX_MEMBERS, "members", epoch.rest);
    var _ :- UniqueLabels(Map(NameOf, members.value));
    var revoked :- GetCounted(IdShape(), MAX_REVOKED, "revoked ids", members.rest);
    var devices :- GetCounted(DeviceShape(f), MAX_REVOKED_KEYS, "revoked devices", revoked.rest);
    Ok(Parsed(Doc(epoch.value, members.value, revoked.value, devices.value), devices.rest))
  }

  function Parse(f: Foreign, b: Bytes): Result<Doc, FormatError> {
    var p :- GetDoc(f, b);
    if p.rest != [] then Err(Truncated) else Ok(p.value)
  }

  // --- reading and writing undo each other ---

  lemma UniqueLabelsExact(names: seq<string>)
    ensures UniqueLabels(names).Ok? <==> Distinct(names, Codes)
  {
    SortShowsRepeats(names, Codes);
  }

  lemma MemberSound(f: Foreign, previous: Option<seq<int>>, b: Bytes)
    requires GetNextMember(f, previous, b).Ok?
    ensures var p := GetNextMember(f, previous, b).value;
            && ValidMember(f, p.value)
            && b == EncMember(p.value) + p.rest
            && (previous.Some? ==> Less(previous.value, p.value.node))
  {
    var node := GetKey(f, b).value;
    var name := GetLabel(node.rest).value;
    var until := GetU64(name.rest).value;
    var duration := GetU64(until.rest).value;
    var inviteUntil := GetU64(duration.rest).value;
    var count := GetCount(inviteUntil.rest, 1, MAX_IDS, "ids").value;
    IdShapeExact();
    ListSound(IdShape(), count.value, None, count.rest);
    var ids := GetList(IdShape(), count.value, None, count.rest).value;
    var standing := GetStanding(f, ids.rest).value;
    var rest := standing.rest;
    var w := EncBytes16(standing.value);
    var v := EncList(IdShape(), ids.value);
    var u := BigEndian(count.value, 1);
    Splice(v, w, rest);
    Splice(u, v + w, rest);
    Splice(BigEndian(inviteUntil.value, 8), u + (v + w), rest);
    var t := BigEndian(inviteUntil.value, 8) + (u + (v + w));
    Splice(BigEndian(duration.value, 8), t, rest);
    Splice(BigEndian(until.value, 8), BigEndian(duration.value, 8) + t, rest);
    Splice(EncLabel(name.value), BigEndian(until.value, 8) + (BigEndian(duration.value, 8) + t), rest);
    Splice(node.value, EncLabel(name.value) + (BigEndian(until.value, 8) + (BigEndian(duration.value, 8) + t)), rest);
  }

  lemma Splice(a: Bytes, b: Bytes, c: Bytes)
    ensures a + (b + c) == (a + b) + c
  {}

  lemma MemberBack(f: Foreign, m: Member, previous: Option<seq<int>>, rest: Bytes)
    requires ValidMember(f, m) && (previous.Some? ==> Less(previous.value, m.node))
    ensures GetNextMember(f, previous, EncMember(m) + rest) == Ok(Parsed(m, rest))
  {
    var w := EncBytes16(m.standing);
    var v := EncList(IdShape(), m.ids);
    var u := BigEndian(|m.ids|, 1);
    var t := BigEndian(m.inviteUntil, 8) + (u + (v + w));
    var s := BigEndian(m.duration, 8) + t;
    var r := BigEndian(m.until, 8) + s;
    Splice(m.node, EncLabel(m.name) + r, rest);
    Splice(EncLabel(m.name), r, rest);
    Splice(BigEndian(m.until, 8), s, rest);
    Splice(BigEndian(m.duration, 8), t, rest);
    Splice(BigEndian(m.inviteUntil, 8), u + (v + w), rest);
    Splice(u, v + w, rest);
    Splice(v, w, rest);
    KeyBack(f, m.node, (EncLabel(m.name) + r) + rest);
    LabelBack(m.name, r + rest);
    U64Back(m.until, s + rest);
    U64Back(m.duration, t + rest);
    U64Back(m.inviteUntil, (u + (v + w)) + rest);
    Widths();
    CountBack(|m.ids|, 1, MAX_IDS, "ids", (v + w) + rest);
    IdShapeExact();
    ListBack(IdShape(), m.ids, None, w + rest);
    StandingBack(f, m.standing, rest);
  }

  lemma MemberShapeExact(f: Foreign)
    ensures Exact(MemberShape(f))
  {
    var sh := MemberShape(f);
    forall previous, b ensures Sound(sh, previous, b) {
      if GetNextMember(f, previous, b).Ok? { MemberSound(f, previous, b); }
    }
    forall previous, v, rest ensures Complete(sh, previous, v, rest) {
      if ValidMember(f, v) && (previous.Some? ==> Less(previous.value, v.node)) { MemberBack(f, v, previous, rest); }
    }
  }

  lemma OpenExact(b: Bytes)
    ensures GetOpen(b).Ok? ==> b == MAGIC + ([VERSION] + GetOpen(b).value.rest)
    ensures GetOpen(MAGIC + ([VERSION] + b)) == Ok(Parsed((), b))
  {
    Widths();
    assert BigEndian(VERSION, 1) == BigEndian(0, 0) + [VERSION] == [VERSION];
    TakeBack(MAGIC, [VERSION] + b);
    UintBack(VERSION, 1, b);
  }

  lemma CountedSound<T(!new)>(sh: Shape<T>, max: nat, field: string, b: Bytes)
    requires Exact(sh) && GetCounted(sh, max, field, b).Ok?
    ensures var p := GetCounted(sh, max, field, b).value;
            |p.value| <= max && ValidList(sh, None, p.value) && b == Counted(sh, p.value) + p.rest
  {
    var count := GetCount(b, 4, max, field).value;
    ListSound(sh, count.value, None, count.rest);
    var p := GetList(sh, count.value, None, count.rest).value;
    Splice(BigEndian(count.value, 4), EncList(sh, p.value), p.rest);
  }

  lemma CountedBack<T(!new)>(sh: Shape<T>, max: nat, field: string, s: seq<T>, rest: Bytes)
    requires Exact(sh) && |s| <= max < 0x1_0000_0000 && ValidList(sh, None, s)
    ensures GetCounted(sh, max, field, Counted(sh, s) + rest) == Ok(Parsed(s, rest))
  {
    Widths();
    Splice(BigEndian(|s|, 4), EncList(sh, s), rest);
    CountBack(|s|, 4, max, field, EncList(sh, s) + rest);
    ListBack(sh, s, None, rest);
  }

  lemma DocSound(f: Foreign, b: Bytes)
    requires GetDoc(f, b).Ok?
    ensures var p := GetDoc(f, b).value; ValidDoc(f, p.value) && b == Encode(f, p.value) + p.rest
  {
    OpenExact(b);
    var epoch := GetU64(GetOpen(b).value.rest).value;
    MemberShapeExact(f);
    CountedSound(MemberShape(f), MAX_MEMBERS, "members", epoch.rest);
    var members := GetCounted(MemberShape(f), MAX_MEMBERS, "members", epoch.rest).value;
    UniqueLabelsExact(Map(NameOf, members.value));
    IdShapeExact();
    CountedSound(IdShape(), MAX_REVOKED, "revoked ids", members.rest);
    var revoked := GetCounted(IdShape(), MAX_REVOKED, "revoked ids", members.rest).value;
    DeviceShapeExact(f);
    CountedSound(DeviceShape(f), MAX_REVOKED_KEYS, "revoked devices", revoked.rest);
    var devices := GetCounted(DeviceShape(f), MAX_REVOKED_KEYS, "revoked devices", revoked.rest).value;
    var z := Counted(DeviceShape(f), devices.value);
    var y := Counted(IdShape(), revoked.value) + z;
    var x := Counted(MemberShape(f), members.value) + y;
    var w := BigEndian(epoch.value, 8) + x;
    Splice(Counted(IdShape(), revoked.value), z, devices.rest);
    Splice(Counted(MemberShape(f), members.value), y, devices.rest);
    Splice(BigEndian(epoch.value, 8), x, devices.rest);
    Splice([VERSION], w, devices.rest);
    Splice(MAGIC, [VERSION] + w, devices.rest);
  }

  lemma DocBack(f: Foreign, d: Doc, rest: Bytes)
    requires ValidDoc(f, d)
    ensures GetDoc(f, Encode(f, d) + rest) == Ok(Parsed(d, rest))
  {
    var z := Counted(DeviceShape(f), d.revokedDevices);
    var y := Counted(IdShape(), d.revoked) + z;
    var x := Counted(MemberShape(f), d.members) + y;
    var w := BigEndian(d.epoch, 8) + x;
    Splice(Counted(IdShape(), d.revoked), z, rest);
    Splice(Counted(MemberShape(f), d.members), y, rest);
    Splice(BigEndian(d.epoch, 8), x, rest);
    Splice([VERSION], w, rest);
    Splice(MAGIC, [VERSION] + w, rest);
    OpenExact(w + rest);
    U64Back(d.epoch, x + rest);
    MemberShapeExact(f);
    CountedBack(MemberShape(f), MAX_MEMBERS, "members", d.members, y + rest);
    UniqueLabelsExact(Map(NameOf, d.members));
    IdShapeExact();
    CountedBack(IdShape(), MAX_REVOKED, "revoked ids", d.revoked, z + rest);
    DeviceShapeExact(f);
    CountedBack(DeviceShape(f), MAX_REVOKED_KEYS, "revoked devices", d.revokedDevices, rest);
  }

  lemma ParseSound(f: Foreign, b: Bytes)
    requires Parse(f, b).Ok?
    ensures ValidDoc(f, Parse(f, b).value) && Encode(f, Parse(f, b).value) == b
  {
    DocSound(f, b);
    var e := Encode(f, Parse(f, b).value);
    assert e + [] == e;
  }

  lemma ParseBack(f: Foreign, d: Doc)
    requires ValidDoc(f, d)
    ensures Parse(f, Encode(f, d)) == Ok(d)
  {
    DocBack(f, d, []);
    assert Encode(f, d) + [] == Encode(f, d);
  }

  /** Non-malleability, both ways: some bytes parse to a document exactly when the document is well formed
      and the bytes are its own canonical bytes. */
  lemma ParseExact(f: Foreign, b: Bytes, d: Doc)
    ensures Parse(f, b) == Ok(d) <==> ValidDoc(f, d) && Encode(f, d) == b
  {
    if Parse(f, b) == Ok(d) { ParseSound(f, b); }
    if ValidDoc(f, d) && Encode(f, d) == b { ParseBack(f, d); }
  }

  /** Two documents with the same bytes are one document. */
  lemma BytesDecide(f: Foreign, d: Doc, e: Doc)
    requires ValidDoc(f, d) && ValidDoc(f, e)
    ensures Encode(f, d) == Encode(f, e) <==> d == e
  {
    ParseExact(f, Encode(f, d), d);
    ParseExact(f, Encode(f, e), e);
  }

  /** No accepted bytes extend accepted bytes. */
  lemma NoAcceptedExtension(f: Foreign, b: Bytes, more: Bytes)
    requires Parse(f, b).Ok? && Parse(f, b + more).Ok?
    ensures more == []
  {
    var d := Parse(f, b).value;
    ParseExact(f, b, d);
    DocBack(f, d, more);
  }

  // --- the size bound ---

  const HEADER_LEN := |MAGIC| + 1 + 8 + 4
  const MAX_MEMBER_LEN := KEY_LEN + 2 + MAX_LEN + 8 + 8 + 8 + 1 + MAX_IDS * MAX_ID_LEN + 2 + MAX_BADGE
  const ENVELOPE_LEN := KEY_LEN + 64
  const MAX_ROSTER_BLOB :=
    ENVELOPE_LEN + HEADER_LEN + MAX_MEMBERS * MAX_MEMBER_LEN + 4 + MAX_REVOKED * MAX_ID_LEN
    + 4 + MAX_REVOKED_KEYS * MAX_REVOKED_DEVICE_LEN

  /** A member that fills every field to its bound. */
  predicate FullId(id: Id) { |id.id| == MAX_REVOCATION_ID }
  predicate FullMember(m: Member) {
    |m.name| == MAX_LEN && |m.ids| == MAX_IDS && |m.standing| == MAX_BADGE && forall id :: id in m.ids ==> FullId(id)
  }

  lemma IdLen(id: Id)
    ensures |EncId(id)| == 10 + |id.id|
  {}

  lemma IdListLen(ids: seq<Id>)
    requires forall i :: 0 <= i < |ids| ==> ValidId(ids[i])
    ensures |EncList(IdShape(), ids)| <= |ids| * MAX_ID_LEN
  {
    var sh := IdShape();
    forall i | 0 <= i < |ids| ensures |sh.enc(ids[i])| <= MAX_ID_LEN { IdLen(ids[i]); }
    ListLen(sh, ids, MAX_ID_LEN);
  }

  lemma IdListFull(ids: seq<Id>)
    requires forall i :: 0 <= i < |ids| ==> FullId(ids[i])
    ensures |EncList(IdShape(), ids)| == |ids| * MAX_ID_LEN
  {
    var sh := IdShape();
    forall i | 0 <= i < |ids| ensures |sh.enc(ids[i])| == MAX_ID_LEN { IdLen(ids[i]); }
    ListLenFull(sh, ids, MAX_ID_LEN);
  }

  lemma MemberLen(m: Member)
    requires |m.node| == KEY_LEN && |m.name| <= MAX_LEN && |m.ids| <= MAX_IDS && |m.standing| <= MAX_BADGE
    requires forall i :: 0 <= i < |m.ids| ==> ValidId(m.ids[i])
    ensures |EncMember(m)| <= MAX_MEMBER_LEN
    ensures FullMember(m) ==> |EncMember(m)| == MAX_MEMBER_LEN
  {
    IdListLen(m.ids);
    assert |m.ids| * MAX_ID_LEN <= MAX_IDS * MAX_ID_LEN;
    if FullMember(m) { IdListFull(m.ids); }
  }

  lemma MembersLen(f: Foreign, ms: seq<Member>)
    requires |ms| <= MAX_MEMBERS && forall i :: 0 <= i < |ms| ==> ValidMember(f, ms[i])
    ensures |Counted(MemberShape(f), ms)| <= 4 + MAX_MEMBERS * MAX_MEMBER_LEN
    ensures |ms| == MAX_MEMBERS && (forall i :: 0 <= i < |ms| ==> FullMember(ms[i])) ==>
              |Counted(MemberShape(f), ms)| == 4 + MAX_MEMBERS * MAX_MEMBER_LEN
  {
    var sh := MemberShape(f);
    forall i | 0 <= i < |ms|
      ensures |sh.enc(ms[i])| <= MAX_MEMBER_LEN
      ensures FullMember(ms[i]) ==> |sh.enc(ms[i])| == MAX_MEMBER_LEN
    {
      LabelIsAscii(ms[i].name);
      MemberLen(ms[i]);
    }
    ListLen(sh, ms, MAX_MEMBER_LEN);
    if forall i :: 0 <= i < |ms| ==> FullMember(ms[i]) { ListLenFull(sh, ms, MAX_MEMBER_LEN); }
  }

  lemma DevicesLen(f: Foreign, ds: seq<RevokedDevice>)
    requires |ds| <= MAX_REVOKED_KEYS && forall i :: 0 <= i < |ds| ==> ValidDevice(f, ds[i])
    ensures |Counted(DeviceShape(f), ds)| <= 4 + MAX_REVOKED_KEYS * MAX_REVOKED_DEVICE_LEN
    ensures |ds| == MAX_REVOKED_KEYS && (forall i :: 0 <= i < |ds| ==> |ds[i].name| == MAX_LEN) ==>
              |Counted(DeviceShape(f), ds)| == 4 + MAX_REVOKED_KEYS * MAX_REVOKED_DEVICE_LEN
  {
    var sh := DeviceShape(f);
    forall i | 0 <= i < |ds|
      ensures |sh.enc(ds[i])| <= MAX_REVOKED_DEVICE_LEN
      ensures |ds[i].name| == MAX_LEN ==> |sh.enc(ds[i])| == MAX_REVOKED_DEVICE_LEN
    {
      LabelIsAscii(ds[i].name);
    }
    ListLen(sh, ds, MAX_REVOKED_DEVICE_LEN);
    if forall i :: 0 <= i < |ds| ==> |ds[i].name| == MAX_LEN { ListLenFull(sh, ds, MAX_REVOKED_DEVICE_LEN); }
  }

  /** A document that fills every list and every field. */
  predicate FullDoc(d: Doc) {
    && |d.members| == MAX_MEMBERS && (forall i :: 0 <= i < |d.members| ==> FullMember(d.members[i]))
    && |d.revoked| == MAX_REVOKED && (forall i :: 0 <= i < |d.revoked| ==> FullId(d.revoked[i]))
    && |d.revokedDevices| == MAX_REVOKED_KEYS
    && (forall i :: 0 <= i < |d.revokedDevices| ==> |d.revokedDevices[i].name| == MAX_LEN)
  }

  /** Every document, and so every accepted byte string, fits the blob a reader admits once the envelope is
      around it; a full document takes it to the byte. */
  lemma SizeBound(f: Foreign, d: Doc)
    requires ValidDoc(f, d)
    ensures |Encode(f, d)| <= MAX_ROSTER_BLOB - ENVELOPE_LEN
    ensures FullDoc(d) ==> |Encode(f, d)| == MAX_ROSTER_BLOB - ENVELOPE_LEN
    ensures MAX_ROSTER_BLOB == 7_524_482
  {
    forall i | 0 <= i < |d.members| ensures ValidMember(f, d.members[i]) { assert MemberShape(f).valid(d.members[i]); }
    forall i | 0 <= i < |d.revoked| ensures ValidId(d.revoked[i]) { assert IdShape().valid(d.revoked[i]); }
    forall i | 0 <= i < |d.revokedDevices| ensures ValidDevice(f, d.revokedDevices[i]) {
      assert DeviceShape(f).valid(d.revokedDevices[i]);
    }
    MembersLen(f, d.members);
    DevicesLen(f, d.revokedDevices);
    IdListLen(d.revoked);
    if FullDoc(d) { IdListFull(d.revoked); }
    assert |d.revoked| * MAX_ID_LEN <= MAX_REVOKED * MAX_ID_LEN;
    DocLen(f, d);
  }

  lemma DocLen(f: Foreign, d: Doc)
    ensures |Encode(f, d)| ==
            13 + 1 + 8 + |Counted(MemberShape(f), d.members)| + 4 + |EncList(IdShape(), d.revoked)|
            + |Counted(DeviceShape(f), d.revokedDevices)|
    ensures |MAGIC| == 13
  {}

  // --- building a document ---

  function Canonicalize<T>(s: seq<T>, key: T -> seq<int>): Result<seq<T>, FormatError> {
    var t := SortBy(s, key);
    if Repeats(t, key) then Err(NonCanonicalOrder) else Ok(t)
  }

  function CheckIds(ids: seq<Id>): Result<seq<Id>, FormatError> {
    if exists i :: 0 <= i < |ids| && !ValidId(ids[i]) then Err(TooLarge("revocation id"))
    else Canonicalize(ids, IdKey)
  }

  function CheckMember(m: Member): Result<Member, FormatError> {
    var _ :- Bound(|m.ids|, MAX_IDS, "ids");
    var ids :- CheckIds(m.ids);
    var _ :- Bound(|m.standing|, MAX_BADGE, "standing");
    Ok(m.(ids := ids))
  }

  function CheckMembers(ms: seq<Member>): (r: Result<seq<Member>, FormatError>)
    ensures r.Ok? <==> forall i :: 0 <= i < |ms| ==> CheckMember(ms[i]).Ok?
    ensures r.Ok? ==> |r.value| == |ms| && forall i :: 0 <= i < |ms| ==> CheckMember(ms[i]) == Ok(r.value[i])
  {
    if ms == [] then Ok([])
    else
      var m :- CheckMember(ms[0]);
      var rest :- CheckMembers(ms[1..]);
      Ok([m] + rest)
  }

  function UniqueNodes(sorted: seq<Member>): Result<(), FormatError> {
    match FirstRepeat(sorted, MemberKey)
    case Some(m) => Err(DuplicateNode(m.node))
    case None => Ok(())
  }

  /** Every member checked, then all of them by key, no key twice. */
  function SortMembers(members: seq<Member>): Result<seq<Member>, FormatError> {
    var checked :- CheckMembers(members);
    var sorted := SortBy(checked, MemberKey);
    var _ :- UniqueNodes(sorted);
    Ok(sorted)
  }

  /** `RosterDoc::with_revocations`. */
  function Build(epoch: u64, members: seq<Member>, revoked: seq<Id>, devices: seq<RevokedDevice>)
    : Result<Doc, FormatError>
  {
    var _ :- Bound(|members|, MAX_MEMBERS, "members");
    var _ :- Bound(|revoked|, MAX_REVOKED, "revoked ids");
    var _ :- Bound(|devices|, MAX_REVOKED_KEYS, "revoked devices");
    var sorted :- SortMembers(members);
    var _ :- UniqueLabels(Map(NameOf, sorted));
    var ids :- CheckIds(revoked);
    var keys :- Canonicalize(devices, DeviceKey);
    Ok(Doc(epoch, sorted, ids, keys))
  }

  /** What a device's ids must be: few, short and distinct. */
  predicate GoodIds(ids: seq<Id>) { (forall i :: 0 <= i < |ids| ==> ValidId(ids[i])) && Distinct(ids, IdKey) }
  predicate GoodMember(m: Member) { |m.ids| <= MAX_IDS && GoodIds(m.ids) && |m.standing| <= MAX_BADGE }

  lemma CheckIdsExact(ids: seq<Id>)
    ensures CheckIds(ids).Ok? <==> GoodIds(ids)
    ensures CheckIds(ids).Ok? ==>
              && CheckIds(ids).value == SortBy(ids, IdKey)
              && ValidList(IdShape(), None, CheckIds(ids).value)
  {
    SortShowsRepeats(ids, IdKey);
    if GoodIds(ids) {
      var t := SortBy(ids, IdKey);
      StrictFromIsStrict(None, t, IdKey);
      SortByBag(ids, IdKey);
      forall i | 0 <= i < |t| ensures ValidId(t[i]) { SameElements(t, ids, t[i]); }
    }
  }

  lemma SameElements<T>(s: seq<T>, t: seq<T>, x: T)
    requires multiset(s) == multiset(t) && x in s
    ensures x in t
  {
    assert x in multiset(s);
  }

  lemma CheckMemberExact(m: Member)
    ensures CheckMember(m).Ok? <==> GoodMember(m)
    ensures CheckMember(m).Ok? ==> CheckMember(m).value == m.(ids := SortBy(m.ids, IdKey))
  {
    CheckIdsExact(m.ids);
  }

  function Sorted(m: Member): Member { m.(ids := SortBy(m.ids, IdKey)) }

  lemma CheckMembersExact(ms: seq<Member>)
    ensures CheckMembers(ms).Ok? <==> forall i :: 0 <= i < |ms| ==> GoodMember(ms[i])
    ensures CheckMembers(ms).Ok? ==> CheckMembers(ms).value == Map(Sorted, ms)
  {
    forall i | 0 <= i < |ms|
      ensures CheckMember(ms[i]).Ok? <==> GoodMember(ms[i])
      ensures CheckMember(ms[i]).Ok? ==> CheckMember(ms[i]).value == Sorted(ms[i])
    {
      CheckMemberExact(ms[i]);
    }
  }

  /** Sorting the members changes neither which keys nor which names they hold. */
  lemma SortedMembersAgree(ms: seq<Member>)
    ensures var t := SortBy(Map(Sorted, ms), MemberKey);
            && (Distinct(ms, MemberKey) <==> !Repeats(t, MemberKey))
            && (Distinct(ms, MemberKey) ==> Strict(t, MemberKey))
            && (Distinct(Map(NameOf, ms), Codes) <==> Distinct(Map(NameOf, t), Codes))
  {
    var checked := Map(Sorted, ms);
    var t := SortBy(checked, MemberKey);
    SortShowsRepeats(checked, MemberKey);
    SameKeysDistinct(checked, ms, MemberKey);
    SortByBag(checked, MemberKey);
    MapBag(NameOf, checked, t);
    SortForgetsOrder(Map(NameOf, checked), Map(NameOf, t), Codes);
    assert Map(NameOf, checked) == Map(NameOf, ms);
  }

  /** When a document builds, and what it then holds: the entries given, each list sorted. */
  lemma BuildExact(epoch: u64, members: seq<Member>, revoked: seq<Id>, devices: seq<RevokedDevice>)
    ensures Build(epoch, members, revoked, devices).Ok? <==>
              && |members| <= MAX_MEMBERS && |revoked| <= MAX_REVOKED && |devices| <= MAX_REVOKED_KEYS
              && (forall i :: 0 <= i < |members| ==> GoodMember(members[i]))
              && Distinct(members, MemberKey)
              && Distinct(Map(NameOf, members), Codes)
              && GoodIds(revoked)
              && Distinct(devices, DeviceKey)
    ensures Build(epoch, members, revoked, devices).Ok? ==>
              Build(epoch, members, revoked, devices).value
              == Doc(epoch, SortBy(Map(Sorted, members), MemberKey), SortBy(revoked, IdKey), SortBy(devices, DeviceKey))
  {
    SortMembersExact(members);
    CheckIdsExact(revoked);
    CanonicalizeExact(devices, DeviceKey);
  }

  /** A refusal says what is wrong: which key stands twice among the members, which name, which bound is passed, or
      that an id or a revoked key repeats. */
  lemma RefusalIsTrue(epoch: u64, members: seq<Member>, revoked: seq<Id>, devices: seq<RevokedDevice>)
    ensures var r := Build(epoch, members, revoked, devices);
            r.Err? ==>
              match r.error
              case DuplicateNode(node) => NodeTwice(members, node)
              case DuplicateLabel(name) => NameTwice(members, name)
              case TooLarge(_) =>
                || |members| > MAX_MEMBERS || |revoked| > MAX_REVOKED || |devices| > MAX_REVOKED_KEYS
                || (exists i :: 0 <= i < |members| && TooBig(members[i]))
                || (exists id :: id in revoked && |id.id| > MAX_REVOCATION_ID)
              case NonCanonicalOrder =>
                || (exists m :: m in members && !Distinct(m.ids, IdKey))
                || !Distinct(revoked, IdKey) || !Distinct(devices, DeviceKey)
              case _ => false
  {
    CanonicalizeExact(devices, DeviceKey);
    IdsRefusal(revoked);
    SortRefusal(members);
    LabelRefusal(members);
  }

  ghost predicate NodeTwice(ms: seq<Member>, node: Bytes) {
    exists i, j :: 0 <= i < j < |ms| && ms[i].node == node && ms[j].node == node
  }

  ghost predicate NameTwice(ms: seq<Member>, name: string) {
    exists i, j :: 0 <= i < j < |ms| && ms[i].name == name && ms[j].name == name
  }

  lemma SortRefusal(ms: seq<Member>)
    ensures var r := SortMembers(ms);
            r.Err? ==>
              || (r.error.DuplicateNode? && NodeTwice(ms, r.error.node))
              || (r.error.TooLarge? && exists i :: 0 <= i < |ms| && TooBig(ms[i]))
              || (r.error.NonCanonicalOrder? && exists m :: m in ms && !Distinct(m.ids, IdKey))
  {
    MembersRefusal(ms);
    if CheckMembers(ms).Ok? {
      CheckMembersExact(ms);
      NodeRefusal(ms, Map(Sorted, ms));
    }
  }

  lemma NodeRefusal(ms: seq<Member>, checked: seq<Member>)
    requires |checked| == |ms| && forall i :: 0 <= i < |ms| ==> checked[i].node == ms[i].node
    ensures var r := UniqueNodes(SortBy(checked, MemberKey));
            r.Err? ==> r.error.DuplicateNode? && NodeTwice(ms, r.error.node)
  {
    var sorted := SortBy(checked, MemberKey);
    SortByBag(checked, MemberKey);
    if Repeats(sorted, MemberKey) {
      var i := FirstRepeatAt(sorted, MemberKey);
      var j, k := TwiceIn(checked, sorted, MemberKey, i);
      assert ms[j].node == sorted[i].node && ms[k].node == sorted[i].node;
    }
  }

  lemma LabelRefusal(ms: seq<Member>)
    ensures SortMembers(ms).Ok? ==>
              var r := UniqueLabels(Map(NameOf, SortMembers(ms).value));
              r.Err? ==> r.error.DuplicateLabel? && NameTwice(ms, r.error.name)
  {
    if SortMembers(ms).Ok? {
      SortMembersExact(ms);
      var checked := Map(Sorted, ms);
      var sorted := SortBy(checked, MemberKey);
      SortByBag(checked, MemberKey);
      MapBag(NameOf, checked, sorted);
      LabelTwice(Map(NameOf, sorted), Map(NameOf, checked), ms);
    }
  }

  lemma LabelTwice(names: seq<string>, given: seq<string>, ms: seq<Member>)
    requires multiset(names) == multiset(given)
    requires |given| == |ms| && forall i :: 0 <= i < |ms| ==> given[i] == ms[i].name
    ensures UniqueLabels(names).Err? ==>
              UniqueLabels(names).error.DuplicateLabel? && NameTwice(ms, UniqueLabels(names).error.name)
  {
    var labels := SortBy(names, Codes);
    SortByBag(names, Codes);
    if Repeats(labels, Codes) {
      var i := FirstRepeatAt(labels, Codes);
      var j, k := TwiceIn(given, labels, Codes, i);
      CodesDistinguish(given[j], labels[i]);
      CodesDistinguish(given[k], labels[i]);
      assert ms[j].name == labels[i] && ms[k].name == labels[i];
    }
  }

  /** A member past one of its bounds. */
  predicate TooBig(m: Member) {
    |m.ids| > MAX_IDS || |m.standing| > MAX_BADGE || exists id :: id in m.ids && |id.id| > MAX_REVOCATION_ID
  }

  lemma IdsRefusal(ids: seq<Id>)
    ensures var r := CheckIds(ids);
            r.Err? ==>
              || (r.error.TooLarge? && exists id :: id in ids && |id.id| > MAX_REVOCATION_ID)
              || (r.error.NonCanonicalOrder? && !Distinct(ids, IdKey))
  {
    CanonicalizeExact(ids, IdKey);
    if i :| 0 <= i < |ids| && !ValidId(ids[i]) { assert ids[i] in ids; }
  }

  lemma {:induction false} MembersRefusal(ms: seq<Member>)
    ensures var r := CheckMembers(ms);
            r.Err? ==>
              || (r.error.TooLarge? && exists i :: 0 <= i < |ms| && TooBig(ms[i]))
              || (r.error.NonCanonicalOrder? && exists m :: m in ms && !Distinct(m.ids, IdKey))
  {
    if ms != [] {
      IdsRefusal(ms[0].ids);
      MembersRefusal(ms[1..]);
      assert ms[0] in ms;
      if i :| 0 <= i < |ms[1..]| && TooBig(ms[1..][i]) { assert TooBig(ms[i + 1]); }
    }
  }

  lemma {:induction false} FirstRepeatAt<T>(s: seq<T>, key: T -> seq<int>) returns (i: nat)
    requires Repeats(s, key)
    ensures i + 1 < |s| && key(s[i]) == key(s[i + 1]) && FirstRepeat(s, key) == Some(s[i])
  {
    if key(s[0]) == key(s[1]) {
      i := 0;
    } else {
      TailRepeats(s, key);
      var j := FirstRepeatAt(s[1..], key);
      i := j + 1;
    }
  }

  /** What stands twice in a row once sorted stands twice in what was given. */
  lemma TwiceIn<T>(s: seq<T>, t: seq<T>, key: T -> seq<int>, i: nat) returns (j: nat, k: nat)
    requires multiset(s) == multiset(t) && i + 1 < |t| && key(t[i]) == key(t[i + 1])
    ensures j < k < |s| && key(s[j]) == key(t[i]) && key(s[k]) == key(t[i])
  {
    MapBag(key, s, t);
    SameSize(s, t);
    var a := Map(key, s);
    var x := key(t[i]);
    Twice(Map(key, t), i, i + 1);
    j, k := FindTwice(a, x);
  }

  lemma Twice<A>(s: seq<A>, i: nat, j: nat)
    requires i < j < |s| && s[i] == s[j]
    ensures multiset(s)[s[i]] >= 2
  {
    assert s == s[..j] + [s[j]] + s[j + 1..];
    assert s[..j][i] == s[i];
  }

  lemma {:induction false} FindTwice<A>(s: seq<A>, x: A) returns (j: nat, k: nat)
    requires multiset(s)[x] >= 2
    ensures j < k < |s| && s[j] == s[k] == x
  {
    assert s == [s[0]] + s[1..];
    if s[0] == x {
      assert x in s[1..];
      var l :| 0 <= l < |s[1..]| && s[1..][l] == x;
      j, k := 0, l + 1;
    } else {
      j, k := FindTwice(s[1..], x);
      j, k := j + 1, k + 1;
    }
  }

  lemma CanonicalizeExact<T>(s: seq<T>, key: T -> seq<int>)
    ensures Canonicalize(s, key) == if Distinct(s, key) then Ok(SortBy(s, key)) else Err(NonCanonicalOrder)
  {
    SortShowsRepeats(s, key);
  }

  lemma SortMembersExact(ms: seq<Member>)
    ensures SortMembers(ms).Ok? <==>
              (forall i :: 0 <= i < |ms| ==> GoodMember(ms[i])) && Distinct(ms, MemberKey)
    ensures SortMembers(ms).Ok? ==>
              && SortMembers(ms).value == SortBy(Map(Sorted, ms), MemberKey)
              && (UniqueLabels(Map(NameOf, SortMembers(ms).value)).Ok? <==> Distinct(Map(NameOf, ms), Codes))
  {
    CheckMembersExact(ms);
    SortedMembersAgree(ms);
    UniqueLabelsExact(Map(NameOf, SortBy(Map(Sorted, ms), MemberKey)));
  }

  lemma SameKeysDistinct<T>(s: seq<T>, t: seq<T>, key: T -> seq<int>)
    requires |s| == |t| && forall i :: 0 <= i < |s| ==> key(s[i]) == key(t[i])
    ensures Distinct(s, key) <==> Distinct(t, key)
  {}

  lemma SortedMembersValid(f: Foreign, ms: seq<Member>)
    requires forall i :: 0 <= i < |ms| ==> Typed(f, ms[i]) && GoodMember(ms[i])
    requires Distinct(ms, MemberKey)
    ensures ValidList(MemberShape(f), None, SortBy(Map(Sorted, ms), MemberKey))
  {
    var checked := Map(Sorted, ms);
    var t := SortBy(checked, MemberKey);
    SortedMembersAgree(ms);
    StrictFromIsStrict(None, t, MemberKey);
    SortByBag(checked, MemberKey);
    forall i | 0 <= i < |t| ensures ValidMember(f, t[i]) {
      SameElements(t, checked, t[i]);
      var j :| 0 <= j < |checked| && checked[j] == t[i];
      CheckIdsExact(ms[j].ids);
      assert |SortBy(ms[j].ids, IdKey)| == |ms[j].ids|;
    }
  }

  lemma SortedDevicesValid(f: Foreign, ds: seq<RevokedDevice>)
    requires forall i :: 0 <= i < |ds| ==> ValidDevice(f, ds[i])
    requires Distinct(ds, DeviceKey)
    ensures ValidList(DeviceShape(f), None, SortBy(ds, DeviceKey))
  {
    var t := SortBy(ds, DeviceKey);
    SortShowsRepeats(ds, DeviceKey);
    StrictFromIsStrict(None, t, DeviceKey);
    SortByBag(ds, DeviceKey);
    forall i | 0 <= i < |t| ensures ValidDevice(f, t[i]) { SameElements(t, ds, t[i]); }
  }

  /** What builds is well formed, so it parses back, and it is signed as one byte string. */
  lemma BuildIsValid(f: Foreign, epoch: u64, members: seq<Member>, revoked: seq<Id>, devices: seq<RevokedDevice>)
    requires forall i :: 0 <= i < |members| ==> Typed(f, members[i])
    requires forall i :: 0 <= i < |devices| ==> ValidDevice(f, devices[i])
    requires Build(epoch, members, revoked, devices).Ok?
    ensures var d := Build(epoch, members, revoked, devices).value;
            ValidDoc(f, d) && Parse(f, Encode(f, d)) == Ok(d)
  {
    BuildExact(epoch, members, revoked, devices);
    var d := Build(epoch, members, revoked, devices).value;
    SortedMembersValid(f, members);
    SortedMembersAgree(members);
    CheckIdsExact(revoked);
    SortedDevicesValid(f, devices);
    assert |d.members| == |members|;
    ParseExact(f, Encode(f, d), d);
  }

  lemma ValidMemberGood(f: Foreign, m: Member)
    requires ValidMember(f, m)
    ensures GoodMember(m) && Sorted(m) == m
  {
    ValidIdsGood(m.ids);
  }

  lemma ValidMembersGood(f: Foreign, ms: seq<Member>)
    requires forall i :: 0 <= i < |ms| ==> ValidMember(f, ms[i])
    ensures (forall i :: 0 <= i < |ms| ==> GoodMember(ms[i])) && Map(Sorted, ms) == ms
  {
    forall i | 0 <= i < |ms| ensures GoodMember(ms[i]) && Sorted(ms[i]) == ms[i] { ValidMemberGood(f, ms[i]); }
  }

  lemma StrictIsSorted<T>(s: seq<T>, key: T -> seq<int>)
    requires StrictFrom(None, s, key)
    ensures Distinct(s, key) && SortBy(s, key) == s
  {
    StrictFromIsStrict(None, s, key);
    SortStrict(s, key);
    SortShowsRepeats(s, key);
  }

  /** A parsed document, rebuilt from its own lists, is itself. */
  lemma RebuildParsed(f: Foreign, b: Bytes)
    requires Parse(f, b).Ok?
    ensures var d := Parse(f, b).value; Build(d.epoch, d.members, d.revoked, d.revokedDevices) == Ok(d)
  {
    var d := Parse(f, b).value;
    ParseExact(f, b, d);
    forall i | 0 <= i < |d.members| ensures ValidMember(f, d.members[i]) { assert MemberShape(f).valid(d.members[i]); }
    ValidMembersGood(f, d.members);
    StrictIsSorted(d.members, MemberKey);
    ValidIdsGood(d.revoked);
    StrictIsSorted(d.revokedDevices, DeviceKey);
    BuildExact(d.epoch, d.members, d.revoked, d.revokedDevices);
  }

  lemma ValidIdsGood(ids: seq<Id>)
    requires ValidList(IdShape(), None, ids)
    ensures GoodIds(ids) && SortBy(ids, IdKey) == ids
  {
    StrictIsSorted(ids, IdKey);
    forall i | 0 <= i < |ids| ensures ValidId(ids[i]) { assert IdShape().valid(ids[i]); }
  }

  // --- the order of what is given does not matter ---

  /** A member with the order of its ids forgotten. */
  datatype MemberBag = MemberBag(
    node: Bytes, name: string, until: u64, duration: u64, inviteUntil: u64, ids: multiset<Id>, standing: Bytes)

  function Forget(m: Member): MemberBag {
    MemberBag(m.node, m.name, m.until, m.duration, m.inviteUntil, multiset(m.ids), m.standing)
  }

  lemma GoodIdsForget(s: seq<Id>, t: seq<Id>)
    requires multiset(s) == multiset(t)
    ensures GoodIds(s) ==> GoodIds(t)
    ensures GoodIds(s) ==> SortBy(s, IdKey) == SortBy(t, IdKey)
  {
    SortForgetsOrder(s, t, IdKey);
    if GoodIds(s) {
      forall i | 0 <= i < |t| ensures ValidId(t[i]) { SameElements(t, s, t[i]); }
    }
  }

  lemma GoodMemberForget(m: Member, n: Member)
    requires Forget(m) == Forget(n)
    ensures GoodMember(m) ==> GoodMember(n) && Sorted(m) == Sorted(n)
  {
    GoodIdsForget(m.ids, n.ids);
    assert |m.ids| == |multiset(m.ids)| == |multiset(n.ids)| == |n.ids|;
  }

  /** A member as built, read off the member with its order forgotten. */
  ghost function SortedOf(bag: MemberBag): Member {
    if m: Member :| Forget(m) == bag && GoodMember(m) then Sorted(m)
    else Member([], "", 0, 0, 0, [], [])
  }

  lemma MembersForget(ms: seq<Member>, ns: seq<Member>)
    requires multiset(Map(Forget, ms)) == multiset(Map(Forget, ns))
    requires forall i :: 0 <= i < |ms| ==> GoodMember(ms[i])
    ensures |ms| == |ns| && forall i :: 0 <= i < |ns| ==> GoodMember(ns[i])
    ensures multiset(Map(Sorted, ms)) == multiset(Map(Sorted, ns))
  {
    var a, b := Map(Forget, ms), Map(Forget, ns);
    assert |a| == |multiset(a)| == |multiset(b)| == |b|;
    forall i | 0 <= i < |ns| ensures GoodMember(ns[i]) {
      SameElements(b, a, b[i]);
      var j :| 0 <= j < |a| && a[j] == b[i];
      GoodMemberForget(ms[j], ns[i]);
    }
    SortedOfAll(ms);
    SortedOfAll(ns);
    MapBag(SortedOf, a, b);
  }

  lemma SortedOfAll(ms: seq<Member>)
    requires forall i :: 0 <= i < |ms| ==> GoodMember(ms[i])
    ensures Map(SortedOf, Map(Forget, ms)) == Map(Sorted, ms)
  {
    forall i | 0 <= i < |ms| ensures SortedOf(Forget(ms[i])) == Sorted(ms[i]) {
      var m :| Forget(m) == Forget(ms[i]) && GoodMember(m) && SortedOf(Forget(ms[i])) == Sorted(m);
      GoodMemberForget(m, ms[i]);
    }
  }

  /** Every list given in another order, those inside the members too, builds the same document, or both are
      refused. */
  lemma BuildForgetsOrder(
    epoch: u64,
    ms: seq<Member>, revoked: seq<Id>, devices: seq<RevokedDevice>,
    ns: seq<Member>, revoked': seq<Id>, devices': seq<RevokedDevice>)
    requires multiset(Map(Forget, ms)) == multiset(Map(Forget, ns))
    requires multiset(revoked) == multiset(revoked')
    requires multiset(devices) == multiset(devices')
    ensures var r, r' := Build(epoch, ms, revoked, devices), Build(epoch, ns, revoked', devices');
            r == r' || (r.Err? && r'.Err?)
  {
    if Build(epoch, ms, revoked, devices).Ok? {
      BuildForgetsOneWay(epoch, ms, revoked, devices, ns, revoked', devices');
    } else if Build(epoch, ns, revoked', devices').Ok? {
      BuildForgetsOneWay(epoch, ns, revoked', devices', ms, revoked, devices);
    }
  }

  lemma BuildForgetsOneWay(
    epoch: u64,
    ms: seq<Member>, revoked: seq<Id>, devices: seq<RevokedDevice>,
    ns: seq<Member>, revoked': seq<Id>, devices': seq<RevokedDevice>)
    requires multiset(Map(Forget, ms)) == multiset(Map(Forget, ns))
    requires multiset(revoked) == multiset(revoked')
    requires multiset(devices) == multiset(devices')
    requires Build(epoch, ms, revoked, devices).Ok?
    ensures Build(epoch, ns, revoked', devices') == Build(epoch, ms, revoked, devices)
  {
    BuildExact(epoch, ms, revoked, devices);
    BuildExact(epoch, ns, revoked', devices');
    MembersForget(ms, ns);
    var a, b := Map(Sorted, ms), Map(Sorted, ns);
    SameKeysDistinct(a, ms, MemberKey);
    SameKeysDistinct(b, ns, MemberKey);
    SortForgetsOrder(a, b, MemberKey);
    MapBag(NameOf, a, b);
    assert Map(NameOf, a) == Map(NameOf, ms) && Map(NameOf, b) == Map(NameOf, ns);
    SortForgetsOrder(Map(NameOf, a), Map(NameOf, b), Codes);
    GoodIdsForget(revoked, revoked');
    SortForgetsOrder(devices, devices', DeviceKey);
    assert |revoked| == |multiset(revoked)| == |revoked'|;
    assert |devices| == |multiset(devices)| == |devices'|;
  }

  // --- the source's own steps, each proved against the functions above ---

  /** Eight writes one after another. */
  lemma InARow(o: Bytes, p: seq<Bytes>)
    requires |p| == 8
    ensures ((((((((o + p[0]) + p[1]) + p[2]) + p[3]) + p[4]) + p[5]) + p[6]) + p[7])
         == o + (p[0] + (p[1] + (p[2] + (p[3] + (p[4] + (p[5] + (p[6] + p[7])))))))
  {
    var x0 := o + p[0];
    var x1 := x0 + p[1];
    var x2 := x1 + p[2];
    var x3 := x2 + p[3];
    var x4 := x3 + p[4];
    var x5 := x4 + p[5];
    Splice(x5, p[6], p[7]);
    Splice(x4, p[5], p[6] + p[7]);
    Splice(x3, p[4], p[5] + (p[6] + p[7]));
    var y3 := p[4] + (p[5] + (p[6] + p[7]));
    Splice(x2, p[3], y3);
    Splice(x1, p[2], p[3] + y3);
    Splice(x0, p[1], p[2] + (p[3] + y3));
    Splice(o, p[0], p[1] + (p[2] + (p[3] + y3)));
  }

  method WriteMember(out: Buffer, m: Member)
    modifies out
    ensures out.bytes == old(out.bytes) + EncMember(m)
  {
    InARow(out.bytes, [m.node, EncLabel(m.name), BigEndian(m.until, 8), BigEndian(m.duration, 8),
                       BigEndian(m.inviteUntil, 8), BigEndian(|m.ids|, 1), EncList(IdShape(), m.ids),
                       EncBytes16(m.standing)]);
    out.Extend(m.node);
    out.PutLabel(m.name);
    out.PutUint(m.until, 8);
    out.PutUint(m.duration, 8);
    out.PutUint(m.inviteUntil, 8);
    out.PutUint(|m.ids|, 1);
    out.PutIds(m.ids);
    out.PutBytes16(m.standing);
  }

  method WriteMembers(f: Foreign, out: Buffer, members: seq<Member>)
    modifies out
    ensures out.bytes == old(out.bytes) + Counted(MemberShape(f), members)
  {
    ghost var sh := MemberShape(f);
    out.PutUint(|members|, 4);
    ghost var start := out.bytes;
    for i := 0 to |members|
      invariant out.bytes == start + EncList(sh, members[..i])
    {
      EncListAppend(sh, members[..i], members[i]);
      assert members[..i + 1] == members[..i] + [members[i]];
      Splice(start, EncList(sh, members[..i]), EncMember(members[i]));
      WriteMember(out, members[i]);
    }
    assert members[..|members|] == members;
    Splice(old(out.bytes), BigEndian(|members|, 4), EncList(sh, members));
  }

  /** `RosterDoc::canonical_bytes`. */
  method CanonicalBytes(f: Foreign, d: Doc) returns (bytes: Bytes)
    ensures bytes == Encode(f, d)
  {
    var out := new Buffer();
    out.Extend(MAGIC);
    out.PutUint(VERSION, 1);
    out.PutUint(d.epoch, 8);
    EncodeInARow(f, d, out.bytes);
    WriteMembers(f, out, d.members);
    out.PutIds32(d.revoked);
    out.PutRevoked32(f, d.revokedDevices);
    bytes := out.bytes;
  }

  lemma EncodeInARow(f: Foreign, d: Doc, head: Bytes)
    requires head == (([] + MAGIC) + BigEndian(VERSION, 1)) + BigEndian(d.epoch, 8)
    ensures ((head + Counted(MemberShape(f), d.members)) + Counted(IdShape(), d.revoked))
            + Counted(DeviceShape(f), d.revokedDevices) == Encode(f, d)
  {
    assert BigEndian(VERSION, 1) == BigEndian(0, 0) + [VERSION] == [VERSION];
    assert [] + MAGIC == MAGIC;
    var e, m, r, z := BigEndian(d.epoch, 8), Counted(MemberShape(f), d.members),
                      Counted(IdShape(), d.revoked), Counted(DeviceShape(f), d.revokedDevices);
    Splice(head + m, r, z);
    Splice(head, m, r + z);
    Splice(MAGIC + [VERSION], e, m + (r + z));
    Splice(MAGIC, [VERSION], e + (m + (r + z)));
  }

  method NextMember(reader: Reader, previous: Option<seq<int>>) returns (r: Result<Member, FormatError>)
    requires reader.Valid()
    modifies reader
    ensures reader.Valid() && Seen(r, reader.Rest()) == GetNextMember(reader.foreign, previous, old(reader.Rest()))
  {
    var node :- reader.Key();
    var _ :- Follows(previous, node);
    var name :- reader.Label();
    var until :- reader.U64();
    var duration :- reader.U64();
    var inviteUntil :- reader.U64();
    var count :- reader.Count(1, MAX_IDS, "ids");
    var ids :- reader.Ids(count);
    var standing :- reader.Standing();
    r := Ok(Member(node, name, until, duration, inviteUntil, ids, standing));
  }

  method Open(reader: Reader) returns (r: Result<(), FormatError>)
    requires reader.Valid()
    modifies reader
    ensures reader.Valid() && Seen(r, reader.Rest()) == GetOpen(old(reader.Rest()))
  {
    var head := reader.Take(|MAGIC|);
    if head.Err? { return Err(BadMagic); }
    var found := reader.Uint(1);
    if found.Err? || head.value != MAGIC || found.value != VERSION { return Err(BadMagic); }
    r := Ok(());
  }

  method Members(reader: Reader, count: nat) returns (r: Result<seq<Member>, FormatError>)
    requires reader.Valid()
    modifies reader
    ensures reader.Valid()
    ensures Seen(r, reader.Rest()) == GetList(MemberShape(reader.foreign), count, None, old(reader.Rest()))
  {
    ghost var sh := MemberShape(reader.foreign);
    ghost var whole := GetList(sh, count, None, reader.Rest());
    var members: seq<Member> := [];
    ReadingStart(sh, count, reader.Rest());
    for i := 0 to count
      invariant reader.Valid() && Reading(sh, whole, members, count - i, reader.Rest())
    {
      ListTurn(sh, whole, members, count - i, reader.Rest());
      var member :- NextMember(reader, LastKey(members, MemberKey));
      members := members + [member];
    }
    ReadingEnd(sh, whole, members, reader.Rest());
    r := Ok(members);
  }

  /** `RosterDoc::parse_canonical`. */
  method ParseCanonical(f: Foreign, bytes: Bytes) returns (r: Result<Doc, FormatError>)
    ensures r == Parse(f, bytes)
  {
    var reader := new Reader(bytes, f);
    var _ :- Open(reader);
    var epoch :- reader.U64();
    var count :- reader.Count(4, MAX_MEMBERS, "members");
    var members :- Members(reader, count);
    var _ :- CheckLabels(Map(NameOf, members));
    var revokedCount :- reader.Count(4, MAX_REVOKED, "revoked ids");
    var revoked :- reader.Ids(revokedCount);
    var deviceCount :- reader.Count(4, MAX_REVOKED_KEYS, "revoked devices");
    var devices :- reader.RevokedDevices(deviceCount);
    if reader.cur != |reader.bytes| { return Err(Truncated); }
    r := Ok(Doc(epoch, members, revoked, devices));
  }

  /** The windows-of-two scan of a sorted array. */
  method FindRepeat<T>(a: array<T>, key: T -> seq<int>) returns (r: Option<T>)
    ensures r == FirstRepeat(a[..], key)
  {
    if a.Length < 2 { return None; }
    assert a[0..] == a[..];
    for i := 1 to a.Length
      invariant FirstRepeat(a[..], key) == FirstRepeat(a[i - 1..], key)
    {
      assert a[i - 1..][1..] == a[i..];
      if key(a[i - 1]) == key(a[i]) { return Some(a[i - 1]); }
    }
    r := None;
  }

  /** `unique_labels`: the names sorted aside, the document's own list left in its order. */
  method CheckLabels(names: seq<string>) returns (r: Result<(), FormatError>)
    ensures r == UniqueLabels(names)
  {
    var a := new string[|names|](i requires 0 <= i < |names| => names[i]);
    assert a[..] == names;
    SortInPlace(a, Codes);
    var found := FindRepeat(a, Codes);
    r := if found.Some? then Err(DuplicateLabel(found.value)) else Ok(());
  }

  method CanonicalizeInPlace<T>(a: array<T>, key: T -> seq<int>) returns (r: Result<(), FormatError>)
    modifies a
    ensures Canonicalize(old(a[..]), key) == if r.Ok? then Ok(a[..]) else Err(r.error)
  {
    SortInPlace(a, key);
    var found := FindRepeat(a, key);
    r := if found.Some? then Err(NonCanonicalOrder) else Ok(());
  }

  method CheckIdsInPlace(a: array<Id>) returns (r: Result<(), FormatError>)
    modifies a
    ensures CheckIds(old(a[..])) == if r.Ok? then Ok(a[..]) else Err(r.error)
  {
    for i := 0 to a.Length
      invariant a[..] == old(a[..])
      invariant forall j :: 0 <= j < i ==> ValidId(a[j])
    {
      if !ValidId(a[i]) {
        assert !ValidId(old(a[..])[i]);
        return Err(TooLarge("revocation id"));
      }
    }
    r := CanonicalizeInPlace(a, IdKey);
  }

  /** A list of ids given over by its owner, sorted where it lies. */
  method CheckedIds(ids: seq<Id>) returns (r: Result<seq<Id>, FormatError>)
    ensures r == CheckIds(ids)
  {
    var a := new Id[|ids|](i requires 0 <= i < |ids| => ids[i]);
    assert a[..] == ids;
    var _ :- CheckIdsInPlace(a);
    r := Ok(a[..]);
  }

  method CanonicalDevices(devices: seq<RevokedDevice>) returns (r: Result<seq<RevokedDevice>, FormatError>)
    ensures r == Canonicalize(devices, DeviceKey)
  {
    var a := new RevokedDevice[|devices|](i requires 0 <= i < |devices| => devices[i]);
    assert a[..] == devices;
    var _ :- CanonicalizeInPlace(a, DeviceKey);
    r := Ok(a[..]);
  }

  /** `check_device`, and the sorted ids put back into their member. */
  method CheckDevice(m: Member) returns (r: Result<Member, FormatError>)
    ensures r == CheckMember(m)
  {
    var _ :- Bound(|m.ids|, MAX_IDS, "ids");
    var ids :- CheckedIds(m.ids);
    var _ :- Bound(|m.standing|, MAX_BADGE, "standing");
    r := Ok(m.(ids := ids));
  }

  lemma {:induction false} CheckMembersAppend(ms: seq<Member>, m: Member)
    ensures CheckMembers(ms + [m]) ==
            match CheckMembers(ms)
            case Err(e) => Err(e)
            case Ok(done) => match CheckMember(m) case Err(e) => Err(e) case Ok(c) => Ok(done + [c])
  {
    if ms == [] {
      assert [] + [m] == [m] && [m][1..] == [];
      if CheckMember(m).Ok? {
        var c := CheckMember(m).value;
        assert [c] + [] == [c] == [] + [c];
      }
    } else {
      assert (ms + [m])[1..] == ms[1..] + [m];
      CheckMembersAppend(ms[1..], m);
      if CheckMember(ms[0]).Ok? && CheckMembers(ms[1..]).Ok? && CheckMember(m).Ok? {
        var x, done, c := CheckMember(ms[0]).value, CheckMembers(ms[1..]).value, CheckMember(m).value;
        assert [x] + (done + [c]) == ([x] + done) + [c];
      }
    }
  }

  lemma {:induction false} CheckMembersStops(ms: seq<Member>, k: nat)
    requires k <= |ms| && CheckMembers(ms[..k]).Err?
    ensures CheckMembers(ms) == CheckMembers(ms[..k])
    decreases |ms|
  {
    if k > 0 {
      assert ms[..k][1..] == ms[1..][..k - 1];
      if CheckMember(ms[0]).Ok? { CheckMembersStops(ms[1..], k - 1); }
    }
  }

  method CheckMembersInPlace(members: array<Member>) returns (r: Result<(), FormatError>)
    modifies members
    ensures CheckMembers(old(members[..])) == if r.Ok? then Ok(members[..]) else Err(r.error)
  {
    ghost var given := members[..];
    for i := 0 to members.Length
      invariant CheckMembers(given[..i]) == Ok(members[..i])
      invariant members[i..] == given[i..]
    {
      assert members[i] == members[i..][0] == given[i];
      assert given[..i + 1] == given[..i] + [given[i]];
      CheckMembersAppend(given[..i], given[i]);
      var checked := CheckDevice(members[i]);
      if checked.Err? {
        CheckMembersStops(given, i + 1);
        return Err(checked.error);
      }
      assert members[i + 1..] == members[i..][1..] == given[i..][1..] == given[i + 1..];
      members[i] := checked.value;
      assert members[..i + 1] == members[..i] + [checked.value];
    }
    assert given[..|given|] == given && members[..members.Length] == members[..];
    r := Ok(());
  }

  method SortMembersInPlace(members: array<Member>) returns (r: Result<(), FormatError>)
    modifies members
    ensures SortMembers(old(members[..])) == if r.Ok? then Ok(members[..]) else Err(r.error)
  {
    var _ :- CheckMembersInPlace(members);
    SortInPlace(members, MemberKey);
    var twice := FindRepeat(members, MemberKey);
    r := if twice.Some? then Err(DuplicateNode(twice.value.node)) else Ok(());
  }

  method SortedMembers(members: seq<Member>) returns (r: Result<seq<Member>, FormatError>)
    ensures r == SortMembers(members)
  {
    var a := new Member[|members|](i requires 0 <= i < |members| => members[i]);
    assert a[..] == members;
    var _ :- SortMembersInPlace(a);
    r := Ok(a[..]);
  }

  /** `RosterDoc::with_revocations`: it owns the lists it is given, and sorts them where they lie. */
  method WithRevocations(epoch: u64, given: seq<Member>, givenRevoked: seq<Id>, givenDevices: seq<RevokedDevice>)
    returns (r: Result<Doc, FormatError>)
    ensures r == Build(epoch, given, givenRevoked, givenDevices)
  {
    var _ :- Bound(|given|, MAX_MEMBERS, "members");
    var _ :- Bound(|givenRevoked|, MAX_REVOKED, "revoked ids");
    var _ :- Bound(|givenDevices|, MAX_REVOKED_KEYS, "revoked devices");
    var members :- SortedMembers(given);
    var _ :- CheckLabels(Map(NameOf, members));
    var revoked :- CheckedIds(givenRevoked);
    var devices :- CanonicalDevices(givenDevices);
    r := Ok(Doc(epoch, members, revoked, devices));
  }

  /** Whether the list names `node`, by halving: right on every document, since its keys ascend. */
  function IsRevokedKey(devices: seq<RevokedDevice>, node: Bytes, lo: nat, hi: nat): (r: bool)
    requires lo <= hi <= |devices| && Strict(devices, DeviceKey)
    ensures r <==> exists i :: lo <= i < hi && devices[i].node == node
    decreases hi - lo
  {
    if lo == hi then false
    else
      var mid := (lo + hi) / 2;
      OutOfHalf(devices, node, lo, mid, hi);
      if devices[mid].node == node then true
      else if Less(devices[mid].node, node) then IsRevokedKey(devices, node, mid + 1, hi)
      else IsRevokedKey(devices, node, lo, mid)
  }

  lemma OutOfHalf(devices: seq<RevokedDevice>, node: Bytes, lo: nat, mid: nat, hi: nat)
    requires lo <= mid < hi <= |devices| && Strict(devices, DeviceKey)
    ensures Less(devices[mid].node, node) ==> forall i :: lo <= i <= mid ==> devices[i].node != node
    ensures Less(node, devices[mid].node) ==> forall i :: mid <= i < hi ==> devices[i].node != node
    ensures Less(devices[mid].node, node) || devices[mid].node == node || Less(node, devices[mid].node)
  {
    var at := devices[mid].node;
    LessTotal(at, node);
    LessIrreflexive(node);
    forall i | lo <= i < hi
      ensures i < mid ==> Less(devices[i].node, at)
      ensures mid < i ==> Less(at, devices[i].node)
    {
      if i < mid { StrictPair(devices, DeviceKey, i, mid); }
      if mid < i { StrictPair(devices, DeviceKey, mid, i); }
    }
    if Less(at, node) && Less(node, at) { LessAsymmetric(at, node); }
    forall i | lo <= i < hi && devices[i].node == node
      ensures !(i <= mid && Less(at, node)) && !(mid <= i && Less(node, at))
    {
      if i < mid { LessAsymmetric(node, at); }
      if mid < i { LessAsymmetric(at, node); }
    }
  }

  /** `is_revoked_key` is right on every document: it answers exactly the keys the document lists. */
  lemma RevokedKeyExact(f: Foreign, d: Doc, node: Bytes)
    requires ValidDoc(f, d)
    ensures Strict(d.revokedDevices, DeviceKey)
    ensures IsRevokedKey(d.revokedDevices, node, 0, |d.revokedDevices|)
            <==> exists i :: 0 <= i < |d.revokedDevices| && d.revokedDevices[i].node == node
  {
    StrictFromIsStrict(None, d.revokedDevices, DeviceKey);
  }
}
