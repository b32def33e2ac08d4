/** The pick-up route's serving side: which standing a device hands to the key that asks, and the one answer both
    ends speak. */
module Route {
  import opened Wrappers
  import opened Order
  import opened Codec
  import opened Roster
  import opened Fold

  // --- the one answer ---

  const HIT: byte := 1
  const MISS: byte := 0

  datatype FetchError = Protocol | Broken

  /** `reply`. */
  function Reply(standing: Option<Bytes>): Bytes {
    if standing.None? || |standing.value| >= 0x1_0000 then [MISS] else [HIT] + EncBytes16(standing.value)
  }

  /** `read_answer`, over what the stream carries; `link` is which bytes are a link's text. */
  function ReadAnswer(link: Bytes -> bool, b: Bytes): Result<Option<Bytes>, FetchError> {
    if b == [] then Err(Broken)
    else if b[0] == MISS then Ok(None)
    else if b[0] != HIT then Err(Protocol)
    else match GetUint(b[1..], 2)
      case Err(_) => Err(Broken)
      case Ok(n) =>
        if n.value > MAX_BADGE then Err(Protocol)
        else match GetTake(n.rest, n.value)
          case Err(_) => Err(Broken)
          case Ok(p) => if link(p.value) then Ok(Some(p.value)) else Err(Protocol)
  }

  /** What is answered is what is read, exactly for a standing an update may carry: a longer one reads as out of
      turn, and one too long to frame is answered as a miss. */
  lemma AnswerExact(link: Bytes -> bool, standing: Option<Bytes>, rest: Bytes)
    requires standing.Some? ==> link(standing.value)
    ensures ReadAnswer(link, Reply(standing) + rest) ==
            if standing.None? || |standing.value| >= 0x1_0000 then Ok(None)
            else if |standing.value| <= MAX_BADGE then Ok(standing)
            else Err(Protocol)
  {
    if standing.Some? && |standing.value| < 0x1_0000 {
      var s := standing.value;
      var b := Reply(standing) + rest;
      assert b[1..] == BigEndian(|s|, 2) + (s + rest);
      Widths();
      UintBack(|s|, 2, s + rest);
      TakeBack(s, rest);
    }
  }

  // --- whose standing is handed out ---

  /** Of a link: every id it can be revoked by, and when it stops being valid. */
  datatype Links = Links(idsOf: Bytes -> set<Bytes>, validUntil: Bytes -> Option<nat>)

  datatype Miss = NotADevice | Unreadable | KeyRevoked | NoRow | RowRevoked | IdRevoked | Ended

  /** Whether a row's standing is refused by its id, here or by the update itself. */
  predicate IdRefused(r: Rules, l: Links, h: Home, d: Doc, standing: Bytes) {
    l.idsOf(standing) * h.ids != {} || (r.idOf(standing).Some? && ListsId(d, r.idOf(standing).value))
  }

  /** `standing_for`: `member` is whether any root has this machine, and `readable` whether what it refuses could be
      read. */
  function StandingFor(r: Rules, l: Links, h: Home, member: bool, readable: bool, peer: Bytes, now: nat)
    : Result<Bytes, Miss>
  {
    if !member then Err(Miss.NotADevice)
    else if !readable then Err(Unreadable)
    else if peer in h.keys then Err(KeyRevoked)
    else match Held(r, h.devices, true)
      case None => Err(NoRow)
      case Some(d) =>
        var row := RowOf(d.members, peer);
        if row.None? then Err(NoRow)
        else if ListsKey(d, peer) then Err(RowRevoked)
        else if IdRefused(r, l, h, d, row.value.standing) then Err(IdRevoked)
        else
          var ends := l.validUntil(row.value.standing);
          if ends.Some? && ends.value >= now then Ok(row.value.standing) else Err(Ended)
  }

  /** A verified update is a well-formed document, so a key has at most one row. */
  lemma HeldIsValid(r: Rules, f: Foreign, opens: Bytes -> Option<Bytes>, list: Option<Bytes>)
    requires Signed(r, f, opens) && Held(r, list, true).Some?
    ensures ValidDoc(f, Held(r, list, true).value)
  {
    assert r.update(list.value) == Opened(f, opens, list.value);
    ParseSound(f, opens(list.value).value);
  }

  /** An update, and what is refused here, leave a key and its standing be. */
  ghost predicate Spares(r: Rules, l: Links, h: Home, d: Doc, peer: Bytes, standing: Bytes) {
    && peer !in h.keys && (forall id :: id in l.idsOf(standing) ==> id !in h.ids)
    && (forall x :: x in d.revokedDevices ==> x.node != peer)
    && (forall x :: x in d.revoked ==> r.idOf(standing) != Some(x.id))
  }

  lemma SparesExact(r: Rules, l: Links, h: Home, d: Doc, peer: Bytes, standing: Bytes)
    ensures Spares(r, l, h, d, peer, standing) <==>
              peer !in h.keys && !ListsKey(d, peer) && !IdRefused(r, l, h, d, standing)
  {
    ListsKeyIs(d, peer);
    NoneShared(l.idsOf(standing), h.ids);
    if r.idOf(standing).Some? { ListsIdIs(d, r.idOf(standing).value); }
  }

  /** What is handed out, exactly: the standing in the asking key's own row of the update held, when neither the
      key nor the standing is refused, here or there, and it has not ended. */
  lemma ServedExact(
    r: Rules, f: Foreign, opens: Bytes -> Option<Bytes>, l: Links, h: Home, member: bool, readable: bool,
    peer: Bytes, now: nat, standing: Bytes)
    requires Signed(r, f, opens)
    ensures StandingFor(r, l, h, member, readable, peer, now) == Ok(standing) <==>
              && member && readable && Held(r, h.devices, true).Some?
              && var d := Held(r, h.devices, true).value;
                 && Spares(r, l, h, d, peer, standing)
                 && l.validUntil(standing).Some? && l.validUntil(standing).value >= now
                 && exists m :: m in d.members && m.node == peer && m.standing == standing
  {
    if Held(r, h.devices, true).Some? {
      var d := Held(r, h.devices, true).value;
      HeldIsValid(r, f, opens, h.devices);
      RowFirst(d.members, peer);
      SparesExact(r, l, h, d, peer, standing);
      if m :| m in d.members && m.node == peer && m.standing == standing { OneRow(f, d, m); }
    }
  }

  lemma RowStandingFits(r: Rules, f: Foreign, opens: Bytes -> Option<Bytes>, list: Option<Bytes>, m: Member)
    requires Signed(r, f, opens) && Held(r, list, true).Some? && m in Held(r, list, true).value.members
    ensures f.link(m.standing) && |m.standing| <= MAX_BADGE
  {
    var d := Held(r, list, true).value;
    HeldIsValid(r, f, opens, list);
    var i :| 0 <= i < |d.members| && d.members[i] == m;
    assert MemberShape(f).valid(d.members[i]);
  }

  /** Every standing handed out is framed as a hit and read back whole: a verified update holds none too long. */
  lemma ServedReadsBack(
    r: Rules, f: Foreign, opens: Bytes -> Option<Bytes>, l: Links, h: Home, peer: Bytes, now: nat,
    standing: Bytes, rest: Bytes)
    requires Signed(r, f, opens)
    requires StandingFor(r, l, h, true, true, peer, now) == Ok(standing)
    ensures ReadAnswer(f.link, Reply(Some(standing)) + rest) == Ok(Some(standing))
  {
    ServedExact(r, f, opens, l, h, true, true, peer, now, standing);
    var m :| m in Held(r, h.devices, true).value.members && m.node == peer && m.standing == standing;
    RowStandingFits(r, f, opens, h.devices, m);
    AnswerExact(f.link, Some(standing), rest);
  }

  /** On a device that upholds what it folded, a row revoked in the update is refused by its key already; only
      this machine's own row, whose key it never writes down, is left for the update to refuse. */
  lemma RowRevokedIsOwn(r: Rules, l: Links, h: Home, peer: Bytes, now: nat)
    requires Upheld(r, h, now)
    requires StandingFor(r, l, h, true, true, peer, now) == Err(RowRevoked)
    ensures r.own == Some(peer)
  {
    var d := Held(r, h.devices, true).value;
    var i :| 0 <= i < |d.revokedDevices| && d.revokedDevices[i].node == peer;
    assert r.own == Some(peer) || peer in RevokedKeys(r, d);
  }
}
