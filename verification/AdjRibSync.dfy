/**
 The senders (bgp_update_packet, bgp_withdraw_packet) and what whole runs of
 set, unset and send steps establish between bgpd and its peer.
 */
module AdjRibSync {
  import opened Wrappers
  import opened AdjRibOut
  import opened AdjRibQueue
  import opened Octets

  const BGP_MAX_PACKET_SIZE: nat := 4096
  const BGP_HEADER_SIZE: nat := 19
  const BGP_NLRI_LENGTH: nat := 1
  const BGP_TOTAL_ATTR_LEN: nat := 2
  const BGP_UNFEASIBLE_LEN: nat := 2

  /** The octets that hold the bits of a prefix, and no more. */
  function PSIZE(rn: Rn): (n: nat)
    ensures n <= 16 && rn.prefixlen <= 8 * n < rn.prefixlen + 8
  {
    (rn.prefixlen + 7) / 8
  }

  /** How a prefix is written: behind the attributes, inside MP_REACH_NLRI (IPv6 and multicast), or there
      with its label and route distinguisher. */
  datatype Family = Unicast | Multiprotocol | Vpn

  /** What leaves in one UPDATE message. An overlong one was built with writes behind the stream; a peer
      takes nothing from it. */
  datatype Packet =
    | Announcement(attr: Attr, prefixes: seq<Rn>)
    | Withdrawal(prefixes: seq<Rn>)
    | Overlong(attr: Attr)

  /** The prefixes that a peer can read in a message. */
  function Named(p: Packet): seq<Rn> {
    match p
    case Announcement(_, rns) => rns
    case Withdrawal(rns) => rns
    case Overlong(_) => []
  }

  /** Room in the stream once the header and these attributes are written. */
  function RoomAfter(attr: Attr): nat {
    BGP_MAX_PACKET_SIZE - BGP_HEADER_SIZE - BGP_UNFEASIBLE_LEN - BGP_TOTAL_ATTR_LEN - attr.wire
  }

  /** What becomes of a prefix: stream_put_prefix looks for room for its octets, and not for their length. */
  datatype Written = Carried | Dropped | Overrun

  function Put(fam: Family, attr: Attr, rn: Rn): Written {
    var room := RoomAfter(attr);
    if fam.Vpn? then if 12 + PSIZE(rn) <= room then Carried else Dropped
    else if BGP_NLRI_LENGTH + PSIZE(rn) <= room then Carried
    else if room == PSIZE(rn) > 0 then Overrun
    else Dropped
  }

  function Minus(n: nat, k: nat): nat {
    if k <= n then n - k else 0
  }

  /** What the loop of bgp_update_packet repeats, and what bgp_withdraw_packet repeats. */
  type Sender = (State, AdvId) -> (State, Option<AdvId>)
  type Withdrawer = (State, AdvId) -> State

  /** The rest of the loop of bgp_update_packet (IPv4 unicast): as many records of the same attribute
      as there is room for. */
  function More(send: Sender, s: State, v: Option<AdvId>, room: nat): (State, seq<Rn>)
    decreases room
  {
    if v.None? || v.value !in s.adv then (s, [])
    else
      var rn := s.adv[v.value].rn;
      if room <= BGP_NLRI_LENGTH + PSIZE(rn) then (s, [])
      else
        var (s1, nxt) := send(s, v.value);
        var (s2, rest) := More(send, s1, nxt, room - BGP_NLRI_LENGTH - PSIZE(rn));
        (s2, [rn] + rest)
  }

  /** The rest of that loop once the stream has been overrun: the room, an unsigned difference, has wrapped
      and never ends, so that every record of the attribute is marked. */
  function All(send: Sender, s: State, v: Option<AdvId>): (State, seq<Rn>)
    decreases |s.adv|
  {
    if v.None? || v.value !in s.adv then (s, [])
    else
      var rn := s.adv[v.value].rn;
      var (s1, nxt) := send(s, v.value);
      if |s1.adv| >= |s.adv| then (s1, [rn])
      else
        var (s2, rest) := All(send, s1, nxt);
        (s2, [rn] + rest)
  }

  /** What a loop gives, behind the prefixes it has dealt with before. */
  function Onto(done: seq<Rn>, r: (State, seq<Rn>)): (State, seq<Rn>) {
    (r.0, done + r.1)
  }

  lemma OntoTwice(a: seq<Rn>, b: seq<Rn>, r: (State, seq<Rn>))
    ensures Onto(a, Onto(b, r)) == Onto(a + b, r) && Onto([], r) == r
  {
    assert a + (b + r.1) == a + b + r.1;
    assert [] + r.1 == r.1;
  }

  /** One call of bgp_update_packet: the new state, the message, and the prefixes whose records were
      synchronised. The room test is made before the attributes are written, so the first prefix can be
      left out of the message, or overrun the stream, although its record is synchronised. */
  function UpdatePacket(send: Sender, s: State, fam: Family): (State, seq<Packet>, seq<Rn>) {
    if s.update == [] || s.update[0] !in s.adv then (s, [], [])
    else
      var v := s.update[0];
      var rn, attr := s.adv[v].rn, AttrOf(s, v);
      if BGP_MAX_PACKET_SIZE <= BGP_NLRI_LENGTH + PSIZE(rn) then (s, [], [])
      else
        var (s1, nxt) := send(s, v);
        var put := Put(fam, attr, rn);
        var (s2, rest) :=
          if !fam.Unicast? then (s1, [])
          else if put.Overrun? then All(send, s1, nxt)
          else More(send, s1, nxt, RoomLeft(attr, rn));
        (s2, [Message(put, attr, [rn] + rest)], [rn] + rest)
  }

  /** The message about these prefixes, by what became of the first. */
  function Message(put: Written, attr: Attr, marked: seq<Rn>): Packet
    requires marked != []
  {
    match put
    case Carried => Announcement(attr, marked)
    case Dropped => Announcement(attr, marked[1..])
    case Overrun => Overlong(attr)
  }

  /** Room left after the first prefix of IPv4 unicast, if that was written. */
  function RoomLeft(attr: Attr, rn: Rn): nat {
    var n := BGP_NLRI_LENGTH + PSIZE(rn);
    if n <= RoomAfter(attr) then RoomAfter(attr) - n else RoomAfter(attr)
  }

  /** The loop of bgp_withdraw_packet. */
  function WithdrawMore(withdraw: Withdrawer, s: State, room: nat, started: bool, fam: Family): (State, seq<Rn>)
    decreases room
  {
    if s.withdraw == [] || s.withdraw[0] !in s.adv then (s, [])
    else
      var rn := s.adv[s.withdraw[0]].rn;
      if room < BGP_NLRI_LENGTH + BGP_TOTAL_ATTR_LEN + PSIZE(rn) then (s, [])
      else
        var s1 := withdraw(s, s.withdraw[0]);
        if !fam.Unicast? then (s1, [rn])
        else
          var (s2, rest) := WithdrawMore(withdraw, s1, WithdrawRoom(room, started, rn), true, fam);
          (s2, [rn] + rest)
  }

  /** Room left after one more withdrawn prefix, and after the header before the first. */
  function WithdrawRoom(room: nat, started: bool, rn: Rn): nat {
    Minus(room, (if started then 0 else BGP_HEADER_SIZE + BGP_UNFEASIBLE_LEN) + BGP_NLRI_LENGTH + PSIZE(rn))
  }

  /** One call of bgp_withdraw_packet. */
  function WithdrawPacket(withdraw: Withdrawer, s: State, fam: Family): (State, seq<Packet>, seq<Rn>) {
    var (s1, rns) := WithdrawMore(withdraw, s, BGP_MAX_PACKET_SIZE, false, fam);
    (s1, if rns == [] then [] else [Withdrawal(rns)], rns)
  }

  // ---- What one packet does ----

  /** The news for a peer: these prefixes now have this attribute, or none. */
  datatype News = News(rns: seq<Rn>, attr: Option<Attr>)

  /** A step that tells the peer exactly this, which is what was intended for those prefixes. */
  ghost predicate Tells(s: State, s': State, news: News) {
    match news
    case News(rns, attr) =>
      && Inv(s')
      && (forall r :: Told(s', r) == if r in rns then attr else Told(s, r))
      && (forall r :: Intended(s', r) == Intended(s, r))
      && (forall r :: r in rns ==> Intended(s, r) == attr && Pending(s, r))
      && (forall r :: Pending(s', r) == (Pending(s, r) && r !in rns))
      && (forall i, j :: 0 <= i < j < |rns| ==> rns[i] != rns[j])
      && |s'.adv| + |rns| == |s.adv|
  }

  lemma TellsNothing(s: State, attr: Option<Attr>)
    requires Inv(s)
    ensures Tells(s, s, News([], attr))
  {
  }

  lemma TellsOneMore(s: State, s1: State, s2: State, rn: Rn, rest: seq<Rn>, attr: Option<Attr>)
    requires Tells(s, s1, News([rn], attr)) && Tells(s1, s2, News(rest, attr))
    ensures Tells(s, s2, News([rn] + rest, attr))
  {
    var all := [rn] + rest;
    forall r: Rn ensures r in all <==> r == rn || r in rest { assert all[0] == rn && all[1..] == rest; }
    forall r: Rn ensures Told(s2, r) == if r in all then attr else Told(s, r) { assert r in [rn] <==> r == rn; }
    forall r: Rn ensures Intended(s2, r) == Intended(s, r) { assert Intended(s1, r) == Intended(s, r); }
    forall r: Rn | r in all ensures Intended(s, r) == attr && Pending(s, r) {
      assert Intended(s1, r) == Intended(s, r) && Pending(s1, r) == (Pending(s, r) && r !in [rn]);
      assert rn in [rn];
    }
    forall r: Rn ensures Pending(s2, r) == (Pending(s, r) && r !in all) {
      assert Pending(s1, r) == (Pending(s, r) && r !in [rn]);
    }
    assert rn !in rest by { assert rn in [rn] && !Pending(s1, rn); }
  }

  /** A sender that synchronises the record it is given and names another one with the same attribute. */
  ghost predicate SendsAt(send: Sender, s: State, v: AdvId) {
    Inv(s) && CanSend(s, v) ==>
      var (s', nxt) := send(s, v);
      && v in s.adv && Tells(s, s', News([s.adv[v].rn], Some(AttrOf(s, v))))
      && (nxt.Some? ==> CanSend(s', nxt.value) && AttrOf(s', nxt.value) == AttrOf(s, v))
      && (nxt.None? ==> NoneLeft(s', AttrOf(s, v)))
      && nxt == FirstOf(s', AttrOf(s, v))
  }

  ghost predicate Sends(send: Sender) {
    forall s, v {:trigger SendsAt(send, s, v)} :: SendsAt(send, s, v)
  }

  lemma SendRecordSends()
    ensures Sends(SendRecord)
  {
    forall s: State, v: AdvId ensures SendsAt(SendRecord, s, v) {
      if Inv(s) && CanSend(s, v) {
        SendOneMeans(s, v);
        var s', rn := SendOne(s, v).0, s.adv[v].rn;
        assert s'.adv.Keys == s.adv.Keys - {v};
        forall r: Rn ensures r in [rn] <==> r == rn {}
      }
    }
  }

  lemma {:induction false} MoreTells(send: Sender, s: State, v: Option<AdvId>, room: nat, attr: Attr)
    requires Sends(send) && Inv(s) && (v.Some? ==> CanSend(s, v.value) && AttrOf(s, v.value) == attr)
    ensures var (s', rns) := More(send, s, v, room); Tells(s, s', News(rns, Some(attr)))
    decreases room
  {
    if v.None? || room <= BGP_NLRI_LENGTH + PSIZE(s.adv[v.value].rn) {
      TellsNothing(s, Some(attr));
    } else {
      assert SendsAt(send, s, v.value);
      var rn := s.adv[v.value].rn;
      var (s1, nxt) := send(s, v.value);
      var room1 := room - BGP_NLRI_LENGTH - PSIZE(rn);
      MoreTells(send, s1, nxt, room1, attr);
      TellsOneMore(s, s1, More(send, s1, nxt, room1).0, rn, More(send, s1, nxt, room1).1, Some(attr));
    }
  }

  lemma {:induction false} AllTells(send: Sender, s: State, v: Option<AdvId>, attr: Attr)
    requires Sends(send) && Inv(s) && (v.Some? ==> CanSend(s, v.value) && AttrOf(s, v.value) == attr)
    requires v.None? ==> NoneLeft(s, attr)
    ensures var (s', rns) := All(send, s, v); Tells(s, s', News(rns, Some(attr))) && NoneLeft(s', attr)
    decreases |s.adv|
  {
    if v.None? {
      TellsNothing(s, Some(attr));
    } else {
      assert SendsAt(send, s, v.value);
      var rn := s.adv[v.value].rn;
      var (s1, nxt) := send(s, v.value);
      AllTells(send, s1, nxt, attr);
      TellsOneMore(s, s1, All(send, s1, nxt).0, rn, All(send, s1, nxt).1, Some(attr));
    }
  }

  lemma AllStep(send: Sender, s: State, v: AdvId)
    requires v in s.adv && |send(s, v).0.adv| < |s.adv|
    ensures All(send, s, Some(v)) == Onto([s.adv[v].rn], All(send, send(s, v).0, send(s, v).1))
  {
  }

  lemma HeadOfUpdate(s: State)
    requires Inv(s) && s.update != []
    ensures CanSend(s, s.update[0])
  {
    assert QueuedOk(s, s.update[0]);
  }

  /** What a call of bgp_update_packet gives: nothing if the FIFO is empty; otherwise one message for
      the attribute at its head. Every record synchronised was meant to have that attribute, so all
      prefixes of a message share it. The message names them all, but for the first one when that was
      dropped; after an overrun all records of the attribute are marked and none is named. */
  ghost predicate Updates(s: State, s': State, pkts: seq<Packet>, marked: seq<Rn>, fam: Family) {
    if s.update == [] then s' == s && pkts == [] && marked == []
    else
      && s.update[0] in s.adv && marked != [] && marked[0] == s.adv[s.update[0]].rn
      && var attr := AttrOf(s, s.update[0]);
         && Tells(s, s', News(marked, Some(attr)))
         && pkts == [Message(Put(fam, attr, marked[0]), attr, marked)]
         && (if !fam.Unicast? then marked == [marked[0]] else Put(fam, attr, marked[0]).Overrun? ==> NoneLeft(s', attr))
  }

  lemma UpdateTells(send: Sender, s: State, fam: Family)
    requires Sends(send) && Inv(s)
    ensures var (s', pkts, marked) := UpdatePacket(send, s, fam); Updates(s, s', pkts, marked, fam)
  {
    if s.update != [] {
      HeadOfUpdate(s);
      var v := s.update[0];
      assert SendsAt(send, s, v);
      var rn, attr := s.adv[v].rn, AttrOf(s, v);
      var (s1, nxt) := send(s, v);
      if !fam.Unicast? {
        assert [rn] + [] == [rn];
      } else if Put(fam, attr, rn).Overrun? {
        AllTells(send, s1, nxt, attr);
        TellsOneMore(s, s1, All(send, s1, nxt).0, rn, All(send, s1, nxt).1, Some(attr));
      } else {
        MoreTells(send, s1, nxt, RoomLeft(attr, rn), attr);
        var (s2, rest) := More(send, s1, nxt, RoomLeft(attr, rn));
        TellsOneMore(s, s1, s2, rn, rest, Some(attr));
      }
    }
  }

  ghost predicate WithdrawsAt(withdraw: Withdrawer, s: State, v: AdvId) {
    Inv(s) && v in s.adv && s.adv[v].baa.None? ==>
      var s' := withdraw(s, v);
      && Tells(s, s', News([s.adv[v].rn], None))
      && s'.adv == s.adv - {v} && s'.withdraw == Without(s.withdraw, v)
  }

  ghost predicate Withdraws(withdraw: Withdrawer) {
    forall s, v {:trigger WithdrawsAt(withdraw, s, v)} :: WithdrawsAt(withdraw, s, v)
  }

  lemma WithdrawRecordWithdraws()
    ensures Withdraws(WithdrawRecord)
  {
    forall s: State, v: AdvId ensures WithdrawsAt(WithdrawRecord, s, v) {
      if Inv(s) && v in s.adv && s.adv[v].baa.None? {
        WithdrawOneMeans(s, v);
        assert WithdrawOne(s, v).adv.Keys == s.adv.Keys - {v};
        forall r: Rn ensures r in [s.adv[v].rn] <==> r == s.adv[v].rn {}
      }
    }
  }

  lemma HeadOfWithdraw(s: State)
    requires Inv(s) && s.withdraw != []
    ensures s.withdraw[0] in s.adv && s.adv[s.withdraw[0]].baa.None?
  {
    assert QueuedOk(s, s.withdraw[0]);
  }

  lemma {:induction false} WithdrawTells(withdraw: Withdrawer, s: State, room: nat, started: bool, fam: Family)
    requires Withdraws(withdraw) && Inv(s)
    ensures var (s', rns) := WithdrawMore(withdraw, s, room, started, fam); Tells(s, s', News(rns, None))
    ensures s.withdraw != [] && room == BGP_MAX_PACKET_SIZE ==> WithdrawMore(withdraw, s, room, started, fam).1 != []
    decreases room
  {
    if s.withdraw == [] {
      TellsNothing(s, None);
    } else {
      HeadOfWithdraw(s);
      var v := s.withdraw[0];
      var rn := s.adv[v].rn;
      if room < BGP_NLRI_LENGTH + BGP_TOTAL_ATTR_LEN + PSIZE(rn) {
        TellsNothing(s, None);
      } else {
        assert WithdrawsAt(withdraw, s, v);
        if fam.Unicast? {
          var s1, room1 := withdraw(s, v), WithdrawRoom(room, started, rn);
          WithdrawTells(withdraw, s1, room1, true, fam);
          var (s2, rest) := WithdrawMore(withdraw, s1, room1, true, fam);
          TellsOneMore(s, s1, s2, rn, rest, None);
        }
      }
    }
  }

  // ---- How long a message is ----

  /** The octets of a prefix in a message: its length octet, for VPNs label and distinguisher, and its bits. */
  function NlriOctets(fam: Family, rn: Rn): nat {
    (if fam.Vpn? then 12 else 1) + PSIZE(rn)
  }

  function NlriLength(fam: Family, rns: seq<Rn>): nat {
    if rns == [] then 0 else NlriOctets(fam, rns[0]) + NlriLength(fam, rns[1..])
  }

  /** The whole message: 19 octets of header, two length fields of two octets, attributes and prefixes. A
      withdrawal that is not of IPv4 unicast has its prefix in MP_UNREACH_NLRI, behind six more octets. */
  function MessageLength(fam: Family, p: Packet): nat
    requires !p.Overlong?
  {
    match p
    case Announcement(attr, rns) => 23 + attr.wire + NlriLength(fam, rns)
    case Withdrawal(rns) => (if fam.Unicast? then 23 else 29) + NlriLength(fam, rns)
  }

  /** The prefixes that follow the first one are put as long as more than their octets remains, and no
      further: the next one on the chain would not leave an octet. */
  lemma {:induction false} MoreFits(send: Sender, s: State, v: Option<AdvId>, room: nat, attr: Attr)
    requires Sends(send) && Inv(s) && v == FirstOf(s, attr)
    requires v.Some? ==> CanSend(s, v.value) && AttrOf(s, v.value) == attr
    ensures var (s', rns) := More(send, s, v, room);
      && (rns != [] ==> NlriLength(Unicast, rns) < room)
      && var w := FirstOf(s', attr);
         w.Some? ==> w.value in s'.adv && room <= NlriLength(Unicast, rns) + NlriOctets(Unicast, s'.adv[w.value].rn)
    decreases room
  {
    if v.Some? {
      var rn := s.adv[v.value].rn;
      if room > BGP_NLRI_LENGTH + PSIZE(rn) {
        assert SendsAt(send, s, v.value);
        var (s1, nxt) := send(s, v.value);
        var room1 := room - BGP_NLRI_LENGTH - PSIZE(rn);
        MoreFits(send, s1, nxt, room1, attr);
        assert ([rn] + More(send, s1, nxt, room1).1)[1..] == More(send, s1, nxt, room1).1;
      }
    }
  }

  /** What is true of the length of an update. It fits the stream, with an octet to spare once there is a
      second prefix; all prefixes marked are named exactly when the first one fits behind the attributes;
      and a record of the attribute stays only if the prefix of the next one did not leave an octet. */
  ghost predicate Filled(s: State, s': State, pkts: seq<Packet>, marked: seq<Rn>, fam: Family) {
    s.update != [] ==>
      && |pkts| == 1 && marked != []
      && var m, attr := pkts[0], AttrOf(s, s.update[0]);
         && (Named(m) == marked <==> 23 + attr.wire + NlriOctets(fam, marked[0]) <= 4096)
         && (!m.Overlong? ==>
              && MessageLength(fam, m) <= 4096
              && (|marked| > 1 ==> MessageLength(fam, m) < 4096)
              && (fam.Unicast? ==> Full(s', attr, MessageLength(fam, m))))
  }

  /** With this many octets written, the next record of the attribute, if there is one, does not fit. */
  ghost predicate Full(s: State, attr: Attr, n: nat) {
    var w := FirstOf(s, attr);
    w.Some? ==> w.value in s.adv && n + NlriOctets(Unicast, s.adv[w.value].rn) >= 4096
  }

  /** The message about a first prefix and those that follow it, which fit into the room it left. */
  lemma MessageFits(fam: Family, attr: Attr, rn: Rn, rest: seq<Rn>)
    requires rest != [] ==> fam.Unicast? && NlriLength(fam, rest) < RoomLeft(attr, rn)
    ensures var m, marked := Message(Put(fam, attr, rn), attr, [rn] + rest), [rn] + rest;
      && (Named(m) == marked <==> 23 + attr.wire + NlriOctets(fam, rn) <= 4096)
      && (!m.Overlong? ==>
           && MessageLength(fam, m) <= 4096
           && (rest != [] ==> MessageLength(fam, m) < 4096)
           && (fam.Unicast? ==> MessageLength(fam, m) + RoomLeft(attr, rn) == 4096 + NlriLength(fam, rest)))
  {
    var marked := [rn] + rest;
    assert marked[1..] == rest;
    assert NlriLength(fam, marked) == NlriOctets(fam, rn) + NlriLength(fam, rest);
  }

  lemma UpdateFills(send: Sender, s: State, fam: Family)
    requires Sends(send) && Inv(s)
    ensures var (s', pkts, marked) := UpdatePacket(send, s, fam); Filled(s, s', pkts, marked, fam)
  {
    if s.update != [] {
      HeadOfUpdate(s);
      var v := s.update[0];
      assert SendsAt(send, s, v);
      var rn, attr := s.adv[v].rn, AttrOf(s, v);
      var (s1, nxt) := send(s, v);
      if !fam.Unicast? {
        MessageFits(fam, attr, rn, []);
      } else if !Put(fam, attr, rn).Overrun? {
        MoreFits(send, s1, nxt, RoomLeft(attr, rn), attr);
        MessageFits(fam, attr, rn, More(send, s1, nxt, RoomLeft(attr, rn)).1);
      }
    }
  }

  lemma WithoutHead(q: seq<AdvId>)
    requires q != [] && q[0] !in q[1..]
    ensures Without(q, q[0]) == q[1..]
  {
  }

  lemma HeadTaken(s: State, s': State, q: seq<AdvId>)
    requires q != [] && NoDup(q) && q[0] in s.adv && s'.adv == s.adv - {q[0]}
    ensures Waiting(s, q) == [s.adv[q[0]].rn] + Waiting(s', Without(q, q[0]))
  {
    var rest := q[1..];
    WithoutHead(q);
    var a, b := Waiting(s, q), Waiting(s', rest);
    forall i | 0 <= i < |rest| ensures a[i + 1] == b[i] {
      assert rest[i] == q[i + 1];
    }
    assert a == [a[0]] + a[1..];
  }

  /** What one call takes from the withdraw FIFO: its first prefixes in order, as many as fit with the
      two octets that close the message. */
  lemma {:induction false} WithdrawFits(withdraw: Withdrawer, s: State, room: nat, started: bool, fam: Family)
    requires Withdraws(withdraw) && Inv(s) && (!started ==> room == BGP_MAX_PACKET_SIZE)
    ensures var ((s', rns), written) := (WithdrawMore(withdraw, s, room, started, fam), if started then 0 else 21);
      && Waiting(s, s.withdraw) == rns + Waiting(s', s'.withdraw)
      && (!fam.Unicast? ==> |rns| <= 1)
      && (fam.Unicast? && rns != [] ==> written + NlriLength(fam, rns) + 2 <= room)
      && (fam.Unicast? && s'.withdraw != [] ==>
            room < written + NlriLength(fam, rns) + 2 + NlriOctets(fam, Waiting(s', s'.withdraw)[0]))
    decreases room
  {
    if s.withdraw == [] {
      return;
    }
    HeadOfWithdraw(s);
    var v := s.withdraw[0];
    var rn := s.adv[v].rn;
    if room < BGP_NLRI_LENGTH + BGP_TOTAL_ATTR_LEN + PSIZE(rn) {
      return;
    }
    assert WithdrawsAt(withdraw, s, v);
    var s1 := withdraw(s, v);
    HeadTaken(s, s1, s.withdraw);
    if fam.Unicast? {
      var room1 := WithdrawRoom(room, started, rn);
      WithdrawFits(withdraw, s1, room1, true, fam);
      var (s', rest) := WithdrawMore(withdraw, s1, room1, true, fam);
      Assoc([rn], rest, Waiting(s', s'.withdraw));
      assert ([rn] + rest)[1..] == rest;
    }
  }

  // ---- Runs ----

  datatype Event = DoSet(rn: Rn, attr: Attr) | DoUnset(rn: Rn) | DoUpdate | DoWithdraw

  function Step(s: State, e: Event, fam: Family): (State, seq<Packet>) {
    match e
    case DoSet(rn, attr) => (Set(s, rn, attr), [])
    case DoUnset(rn) => (Unset(s, rn), [])
    case DoUpdate => var (s1, pkts, _) := UpdatePacket(SendRecord, s, fam); (s1, pkts)
    case DoWithdraw => var (s1, pkts, _) := WithdrawPacket(WithdrawRecord, s, fam); (s1, pkts)
  }

  type Stepper = (State, Event, Family) -> (State, seq<Packet>)

  /** What a run leaves: the state and the messages sent, in order. */
  datatype Outcome = Outcome(s: State, sent: seq<Packet>)

  function Run(step: Stepper, s: State, events: seq<Event>, fam: Family): Outcome {
    if events == [] then Outcome(s, [])
    else
      var o := Run(step, s, events[..|events| - 1], fam);
      var (s1, pkts) := step(o.s, events[|events| - 1], fam);
      Outcome(s1, o.sent + pkts)
  }

  /** Before the first route: bgp_sync_init. */
  function Init(self: nat): State {
    State(self, map[], map[], map[], map[], map[], [], [], 0, 0)
  }

  /** The last decision taken for rn. */
  function Wanted(events: seq<Event>, rn: Rn): Option<Attr> {
    if events == [] then None
    else
      match events[|events| - 1]
      case DoSet(r, attr) => if r == rn then Some(attr) else Wanted(events[..|events| - 1], rn)
      case DoUnset(r) => if r == rn then None else Wanted(events[..|events| - 1], rn)
      case DoUpdate => Wanted(events[..|events| - 1], rn)
      case DoWithdraw => Wanted(events[..|events| - 1], rn)
  }

  /** What a message says of the prefixes it names. */
  function NewsOf(p: Packet): Option<Attr> {
    if p.Announcement? then Some(p.attr) else None
  }

  /** What a peer that applies the messages in order holds for rn. */
  function Holds(sent: seq<Packet>, rn: Rn): Option<Attr> {
    if sent == [] then None
    else if rn in Named(sent[|sent| - 1]) then NewsOf(sent[|sent| - 1])
    else Holds(sent[..|sent| - 1], rn)
  }

  /** Every attribute announced leaves room for its prefix. */
  ghost predicate AllFit(events: seq<Event>, fam: Family) {
    forall e :: e in events && e.DoSet? ==> Put(fam, e.attr, e.rn).Carried?
  }

  lemma {:induction false} WantedFits(events: seq<Event>, rn: Rn, fam: Family)
    requires AllFit(events, fam) && Wanted(events, rn).Some?
    ensures Put(fam, Wanted(events, rn).value, rn).Carried?
  {
    var last := events[|events| - 1];
    assert last in events;
    if !(last.DoSet? && last.rn == rn) {
      WantedFits(events[..|events| - 1], rn, fam);
    }
  }

  /** What a step means for each prefix. */
  ghost predicate StepMeans(s: State, e: Event, s': State, pkts: seq<Packet>, fam: Family) {
    Inv(s) ==>
      && Inv(s')
      && (forall r :: Intended(s', r) ==
           if e.DoSet? && e.rn == r then Some(e.attr) else if e.DoUnset? && e.rn == r then None else Intended(s, r))
      && match e
         case DoUpdate => exists marked :: Updates(s, s', pkts, marked, fam)
         case DoWithdraw =>
           if pkts == [] then s.withdraw == [] && forall r :: Told(s', r) == Told(s, r)
           else
             && |pkts| == 1 && pkts[0].Withdrawal? && pkts[0].prefixes != []
             && Tells(s, s', News(pkts[0].prefixes, None))
         case _ => pkts == [] && forall r :: Told(s', r) == Told(s, r)
  }

  ghost predicate Sound(step: Stepper) {
    forall s, e, fam {:trigger step(s, e, fam)} ::
      var (s', pkts) := step(s, e, fam); StepMeans(s, e, s', pkts, fam)
  }

  lemma StepIsSound()
    ensures Sound(Step)
  {
    forall s: State, e: Event, fam: Family
      ensures var (s', pkts) := Step(s, e, fam); StepMeans(s, e, s', pkts, fam)
    {
      if Inv(s) {
        match e {
          case DoSet(rn, attr) => SetMeans(s, rn, attr);
          case DoUnset(rn) => UnsetMeans(s, rn);
          case DoUpdate =>
            SendRecordSends();
            UpdateTells(SendRecord, s, fam);
          case DoWithdraw =>
            WithdrawRecordWithdraws();
            WithdrawTells(WithdrawRecord, s, BGP_MAX_PACKET_SIZE, false, fam);
        }
      }
    }
  }

  lemma InitInv(self: nat)
    ensures Inv(Init(self))
    ensures forall rn :: Told(Init(self), rn) == None && Intended(Init(self), rn) == None
  {
    var s := Init(self);
    assert ToldSet(s) == {};
    forall rn: Rn ensures AdjAt(s, rn) == None {}
  }

  /** Over any run, the structure is in order and the intended state is the last decision for every prefix. */
  lemma {:induction false} RunIntends(step: Stepper, self: nat, events: seq<Event>, fam: Family)
    requires Sound(step)
    ensures var o := Run(step, Init(self), events, fam);
      Inv(o.s) && forall r :: Intended(o.s, r) == Wanted(events, r)
  {
    if events == [] {
      InitInv(self);
    } else {
      var before := events[..|events| - 1];
      RunIntends(step, self, before, fam);
      var o := Run(step, Init(self), before, fam);
      var (s', pkts) := step(o.s, events[|events| - 1], fam);
      assert StepMeans(o.s, events[|events| - 1], s', pkts, fam);
    }
  }

  /** What one withdraw message takes: the first prefixes of the FIFO, in order. With it the FIFO is empty
      or, in IPv4 unicast, its next prefix would not have fitted. */
  ghost predicate TakenInOrder(s: State, s': State, pkts: seq<Packet>, fam: Family) {
    var rns := if pkts == [] then [] else Named(pkts[0]);
    && Waiting(s, s.withdraw) == rns + Waiting(s', s'.withdraw)
    && (!fam.Unicast? ==> |rns| <= 1)
    && (pkts != [] ==> !pkts[0].Overlong? && MessageLength(fam, pkts[0]) <= 4096)
    && (fam.Unicast? && pkts != [] && !pkts[0].Overlong? && s'.withdraw != [] ==>
          MessageLength(fam, pkts[0]) + NlriOctets(fam, Waiting(s', s'.withdraw)[0]) > 4096)
  }

  lemma WithdrawFills(withdraw: Withdrawer, s: State, fam: Family)
    requires Withdraws(withdraw) && Inv(s)
    ensures var (s', pkts, _) := WithdrawPacket(withdraw, s, fam); TakenInOrder(s, s', pkts, fam)
  {
    WithdrawFits(withdraw, s, BGP_MAX_PACKET_SIZE, false, fam);
    var rns := WithdrawMore(withdraw, s, BGP_MAX_PACKET_SIZE, false, fam).1;
    if |rns| == 1 {
      assert NlriLength(fam, rns[1..]) == 0;
    }
  }

  /** The length of a message that was not built with writes behind the stream. */
  predicate WithinStream(fam: Family, p: Packet) {
    !p.Overlong? ==> MessageLength(fam, p) <= 4096
  }

  lemma StepFits(s: State, e: Event, fam: Family)
    requires Inv(s)
    ensures forall p :: p in Step(s, e, fam).1 ==> WithinStream(fam, p)
  {
    match e {
      case DoSet(_, _) =>
      case DoUnset(_) =>
      case DoUpdate =>
        SendRecordSends();
        UpdateTells(SendRecord, s, fam);
        UpdateFills(SendRecord, s, fam);
      case DoWithdraw =>
        WithdrawRecordWithdraws();
        WithdrawFills(WithdrawRecord, s, fam);
    }
  }

  /** Over any run every message sent fits the stream, but for the overlong ones. */
  lemma {:induction false} MessagesFit(self: nat, events: seq<Event>, fam: Family)
    ensures forall p :: p in Run(Step, Init(self), events, fam).sent ==> WithinStream(fam, p)
  {
    if events != [] {
      var before := events[..|events| - 1];
      StepIsSound();
      RunIntends(Step, self, before, fam);
      MessagesFit(self, before, fam);
      StepFits(Run(Step, Init(self), before, fam).s, events[|events| - 1], fam);
    }
  }

  lemma HoldsAppend(sent: seq<Packet>, pkts: seq<Packet>, rn: Rn)
    requires |pkts| <= 1
    ensures Holds(sent + pkts, rn) ==
      if pkts == [] || rn !in Named(pkts[0]) then Holds(sent, rn) else NewsOf(pkts[0])
  {
    if pkts == [] {
      assert sent + pkts == sent;
    } else {
      assert (sent + pkts)[..|sent + pkts| - 1] == sent;
    }
  }

  /** One step keeps what was told equal to what the peer holds, provided the first prefix of an
      announcement fits behind its attributes. */
  lemma StepTells(s: State, e: Event, s': State, pkts: seq<Packet>, fam: Family, sent: seq<Packet>)
    requires Inv(s) && StepMeans(s, e, s', pkts, fam)
    requires forall r :: Told(s, r) == Holds(sent, r)
    requires forall r :: Intended(s, r).Some? ==> Put(fam, Intended(s, r).value, r).Carried?
    ensures forall r :: Told(s', r) == Holds(sent + pkts, r)
  {
    if e.DoUpdate? {
      var marked :| Updates(s, s', pkts, marked, fam);
      if s.update != [] {
        assert marked[0] in marked;
        assert Intended(s, marked[0]) == Some(AttrOf(s, s.update[0]));
      }
    }
    forall r: Rn ensures Told(s', r) == Holds(sent + pkts, r) {
      HoldsAppend(sent, pkts, r);
    }
  }

  /** Over any run in which every announced attribute leaves room for its prefix, `adj->attr` is exactly
      what a peer applying the messages holds, for every prefix. */
  lemma {:induction false} RunTells(step: Stepper, self: nat, events: seq<Event>, fam: Family)
    requires Sound(step) && AllFit(events, fam)
    ensures var o := Run(step, Init(self), events, fam); forall r :: Told(o.s, r) == Holds(o.sent, r)
  {
    if events == [] {
      InitInv(self);
    } else {
      var before := events[..|events| - 1];
      assert AllFit(before, fam);
      RunTells(step, self, before, fam);
      RunIntends(step, self, before, fam);
      var o := Run(step, Init(self), before, fam);
      var (s', pkts) := step(o.s, events[|events| - 1], fam);
      assert StepMeans(o.s, events[|events| - 1], s', pkts, fam);
      forall r: Rn | Intended(o.s, r).Some? ensures Put(fam, Intended(o.s, r).value, r).Carried? {
        WantedFits(before, r, fam);
      }
      StepTells(o.s, events[|events| - 1], s', pkts, fam, o.sent);
    }
  }

  /** The two together for the code's own steps: whatever the events, the structure is in order, what is
      intended is the last decision, and what was told is what the peer holds. */
  lemma Synchronised(self: nat, events: seq<Event>, fam: Family)
    ensures var o := Run(Step, Init(self), events, fam);
      && Inv(o.s)
      && (forall r :: Intended(o.s, r) == Wanted(events, r))
      && (AllFit(events, fam) ==> forall r :: Told(o.s, r) == Holds(o.sent, r))
  {
    StepIsSound();
    RunIntends(Step, self, events, fam);
    if AllFit(events, fam) {
      RunTells(Step, self, events, fam);
    }
  }

  // ---- When told and held part ----

  /** What an UPDATE fails to carry, of the prefixes pending with the attribute at the head of the FIFO:
      nothing; the prefix at the head; or after an overrun all of them, in IPv4 unicast. */
  ghost predicate Uncarried(s: State, fam: Family, r: Rn)
    requires s.update != [] && s.update[0] in s.adv
  {
    var rn, attr := s.adv[s.update[0]].rn, AttrOf(s, s.update[0]);
    match Put(fam, attr, rn)
    case Carried => false
    case Dropped => r == rn
    case Overrun => r == rn || (fam.Unicast? && Pending(s, r) && Intended(s, r) == Some(attr))
  }

  /** bgp_update_packet keeps told equal to held exactly when every prefix that its message fails to carry
      had been told the same before: in particular whenever the first prefix and its length octet fit behind
      the attributes. */
  lemma UpdateFaithful(s: State, fam: Family, s': State, pkts: seq<Packet>, marked: seq<Rn>, sent: seq<Packet>)
    requires Inv(s) && s.update != [] && Updates(s, s', pkts, marked, fam)
    requires forall r :: Told(s, r) == Holds(sent, r)
    ensures s.update[0] in s.adv
    ensures (forall r :: Told(s', r) == Holds(sent + pkts, r)) <==>
            (forall r :: Uncarried(s, fam, r) ==> Told(s, r) == Some(AttrOf(s, s.update[0])))
  {
    var attr := AttrOf(s, s.update[0]);
    forall r: Rn
      ensures Told(s', r) == Holds(sent + pkts, r) <==> (Uncarried(s, fam, r) ==> Told(s, r) == Some(attr))
    {
      UpdateFaithfulAt(s, fam, s', pkts, marked, sent, r);
    }
    assert forall r :: Told(s', r) == Holds(sent + pkts, r) <==> (Uncarried(s, fam, r) ==> Told(s, r) == Some(attr));
  }

  lemma UpdateFaithfulAt(s: State, fam: Family, s': State, pkts: seq<Packet>, marked: seq<Rn>, sent: seq<Packet>, r: Rn)
    requires Inv(s) && s.update != [] && Updates(s, s', pkts, marked, fam)
    requires Told(s, r) == Holds(sent, r)
    ensures s.update[0] in s.adv
    ensures Told(s', r) == Holds(sent + pkts, r)
            <==> (Uncarried(s, fam, r) ==> Told(s, r) == Some(AttrOf(s, s.update[0])))
    ensures r in Named(pkts[0]) <==> r in marked && !Uncarried(s, fam, r)
  {
    var rn, attr := marked[0], AttrOf(s, s.update[0]);
    HoldsAppend(sent, pkts, r);
    assert marked == [rn] + marked[1..];
    assert r in marked <==> r == rn || r in marked[1..];
    assert rn !in marked[1..];
    assert Told(s', r) == if r in marked then Some(attr) else Told(s, r);
    if Put(fam, attr, rn).Overrun? && fam.Unicast? {
      assert Pending(s', r) == (Pending(s, r) && r !in marked) && Intended(s', r) == Intended(s, r);
      assert Uncarried(s, fam, r) <==> r in marked;
    }
  }

  /** A prefix announced for the first time is held by the peer exactly when it and its length octet fit;
      it is marked as told in any case. */
  lemma ToldButNotHeld(fam: Family, rn: Rn, attr: Attr)
    ensures var o := Run(Step, Init(0), [DoSet(rn, attr), DoUpdate], fam);
      Told(o.s, rn) == Some(attr) && Holds(o.sent, rn) == if Put(fam, attr, rn).Carried? then Some(attr) else None
  {
    var s0 := Init(0);
    InitInv(0);
    SetMeans(s0, rn, attr);
    var s1 := Set(s0, rn, attr);
    TwoSteps(Step, s0, DoSet(rn, attr), DoUpdate, fam);
    NothingPending(s1, rn);
    FirstSent(s1, fam, rn, attr);
  }

  /** The three ways for attributes to be too long: a prefix without room, the default route without room
      for its length octet, and a prefix that overruns the stream by one octet. */
  lemma TooLong()
    ensures Put(Unicast, Attr(1, 4073), Rn(0, 24)) == Dropped
    ensures Put(Unicast, Attr(1, 4073), Rn(0, 0)) == Dropped
    ensures Put(Unicast, Attr(1, 4070), Rn(0, 24)) == Overrun
    ensures Put(Unicast, Attr(1, 4069), Rn(0, 24)) == Carried
  {
    assert PSIZE(Rn(0, 24)) == 3;
  }

  lemma TwoSteps(step: Stepper, s: State, e1: Event, e2: Event, fam: Family)
    requires step(s, e1, fam).1 == []
    ensures var (s2, pkts) := step(step(s, e1, fam).0, e2, fam);
      Run(step, s, [e1, e2], fam) == Outcome(s2, pkts)
  {
    assert [e1, e2][..1] == [e1] && [e1][..0] == [];
    var s1 := step(s, e1, fam).0;
    assert Run(step, s, [e1], fam) == Outcome(s1, []);
    assert [] + step(s1, e2, fam).1 == step(s1, e2, fam).1;
  }

  /** The only prefix pending. */
  lemma FirstSent(s: State, fam: Family, rn: Rn, attr: Attr)
    requires Inv(s) && s.update != []
    requires forall r :: Intended(s, r) == (if r == rn then Some(attr) else None) && Told(s, r) == None
    ensures var (s', pkts) := Step(s, DoUpdate, fam);
      Told(s', rn) == Some(attr) && Holds(pkts, rn) == if Put(fam, attr, rn).Carried? then Some(attr) else None
  {
    SendRecordSends();
    UpdateTells(SendRecord, s, fam);
    var (s', pkts, marked) := UpdatePacket(SendRecord, s, fam);
    OnlySent(s, s', pkts, marked, fam, rn, attr);
  }

  lemma OnlySent(s: State, s': State, pkts: seq<Packet>, marked: seq<Rn>, fam: Family, rn: Rn, attr: Attr)
    requires Inv(s) && s.update != [] && Updates(s, s', pkts, marked, fam)
    requires forall r :: Intended(s, r) == (if r == rn then Some(attr) else None) && Told(s, r) == None
    ensures Told(s', rn) == Some(attr) && Holds(pkts, rn) == if Put(fam, attr, rn).Carried? then Some(attr) else None
  {
    assert marked[0] in marked && Intended(s, marked[0]) == Some(AttrOf(s, s.update[0]));
    UpdateFaithfulAt(s, fam, s', pkts, marked, [], rn);
    HoldsAppend([], pkts, rn);
    assert [] + pkts == pkts;
  }

  /** A prefix whose intended and told states differ is on a FIFO. */
  lemma NothingPending(s: State, rn: Rn)
    requires Inv(s)
    ensures s.update == [] && s.withdraw == [] ==> Intended(s, rn) == Told(s, rn) && !Pending(s, rn)
    ensures s.update == [] && Intended(s, rn).Some? ==> Intended(s, rn) == Told(s, rn)
  {
    AdjAtHome(s, rn);
    if AdjAt(s, rn).Some? {
      var a := AdjAt(s, rn).value;
      assert AdjOk(s, a);
      if s.adj[a].adv.Some? {
        var v := s.adj[a].adv.value;
        assert AdvOk(s, v) && QueuedOk(s, v);
      }
    }
  }

  // ---- Draining ----

  /** Which FIFO is served next when both have records: any choice, by the state and the sends left. */
  type Scheduler = (State, nat) -> bool

  function NextSend(pick: Scheduler, s: State, n: nat): Event {
    if s.withdraw == [] || (s.update != [] && pick(s, n)) then DoUpdate else DoWithdraw
  }

  /** Send while there is anything to send, at most n times. */
  function Drain(step: Stepper, pick: Scheduler, s: State, fam: Family, n: nat): Outcome
    decreases n
  {
    if n == 0 || (s.update == [] && s.withdraw == []) then Outcome(s, [])
    else
      var (s1, pkts) := step(s, NextSend(pick, s, n), fam);
      var o := Drain(step, pick, s1, fam, n - 1);
      Outcome(o.s, pkts + o.sent)
  }

  /** Every send on its own non-empty FIFO leaves fewer records pending, whatever is on the other. */
  lemma SendShrinks(s: State, e: Event, s': State, pkts: seq<Packet>, fam: Family)
    requires Inv(s) && StepMeans(s, e, s', pkts, fam)
    requires (e.DoUpdate? && s.update != []) || (e.DoWithdraw? && s.withdraw != [])
    ensures Inv(s') && |s'.adv| < |s.adv| && forall r :: Intended(s', r) == Intended(s, r)
  {
    if e.DoUpdate? {
      var marked :| Updates(s, s', pkts, marked, fam);
    }
  }

  /** Both FIFOs are empty, and every prefix is told as was intended in s. */
  ghost predicate Drained(s: State, s': State) {
    && Inv(s') && s'.update == [] && s'.withdraw == []
    && forall r :: Told(s', r) == Intended(s, r) && Intended(s', r) == Intended(s, r)
  }

  lemma DrainedLater(s: State, s1: State, s': State)
    requires Drained(s1, s') && forall r :: Intended(s1, r) == Intended(s, r)
    ensures Drained(s, s')
  {
    forall r: Rn
      ensures Told(s', r) == Intended(s, r) && Intended(s', r) == Intended(s, r)
    {
      assert Intended(s1, r) == Intended(s, r);
    }
  }

  /** Whatever the order in which the FIFOs are served, as many sends as there are pending records empty
      both, and then every prefix is told as intended. */
  lemma {:induction false} DrainSynchronises(step: Stepper, pick: Scheduler, s: State, fam: Family, n: nat)
    requires Sound(step) && Inv(s) && |s.adv| <= n
    ensures Drained(s, Drain(step, pick, s, fam, n).s)
    decreases n
  {
    if s.update == [] && s.withdraw == [] {
      forall r: Rn ensures Told(s, r) == Intended(s, r) { NothingPending(s, r); }
    } else {
      var e := NextSend(pick, s, n);
      var (s1, pkts) := step(s, e, fam);
      SendShrinks(s, e, s1, pkts, fam);
      DrainSynchronises(step, pick, s1, fam, n - 1);
      DrainedLater(s, s1, Drain(step, pick, s1, fam, n - 1).s);
    }
  }

  // ---- The order of bgp_write_packet ----

  /** What may go out now: withdrawals first, then an update if the route of its first record is ready. A
      route is ready when it is older than the last synchronisation and its peer, if that has restarted,
      has sent its End-of-RIB. */
  function WriteNext(ready: Rn -> bool, s: State): Option<Event> {
    if s.withdraw != [] then Some(DoWithdraw)
    else if s.update != [] && s.update[0] in s.adv && ready(s.adv[s.update[0]].rn) then Some(DoUpdate)
    else None
  }

  /** Calls of bgp_write_packet until there is nothing to write, at most n of them. */
  function WriteAll(step: Stepper, ready: Rn -> bool, s: State, fam: Family, n: nat): Outcome
    decreases n
  {
    var e := WriteNext(ready, s);
    if n == 0 || e.None? then Outcome(s, [])
    else
      var (s1, pkts) := step(s, e.value, fam);
      var o := WriteAll(step, ready, s1, fam, n - 1);
      Outcome(o.s, pkts + o.sent)
  }

  /** An announcement is waiting for rn. */
  predicate Announcing(s: State, rn: Rn) {
    Pending(s, rn) && Intended(s, rn).Some?
  }

  /** The first record of the update FIFO is an announcement that waits. */
  lemma HeadWaits(s: State)
    requires Inv(s) && s.update != []
    ensures s.update[0] in s.adv && Announcing(s, s.adv[s.update[0]].rn)
  {
    var v := s.update[0];
    assert QueuedOk(s, v) && AdvOk(s, v);
    AdjAtIs(s, s.adv[v].adj);
  }

  /** What is left waiting was waiting before, and the peer was told nothing about it; with no
      announcement ready none has left. */
  ghost predicate Sent(ready: Rn -> bool, s: State, s': State) {
    && (forall r :: Intended(s', r) == Intended(s, r))
    && (forall r :: Pending(s', r) ==> Pending(s, r) && Told(s', r) == Told(s, r))
    && (forall r :: !Pending(s', r) ==> Told(s', r) == Intended(s, r))
    && (NoneReady(ready, s) ==> forall r :: Announcing(s, r) ==> Pending(s', r))
  }

  ghost predicate NoneReady(ready: Rn -> bool, s: State) {
    forall r :: Announcing(s, r) ==> !ready(r)
  }

  lemma SentTwice(ready: Rn -> bool, s: State, s1: State, s2: State)
    requires Sent(ready, s, s1) && Sent(ready, s1, s2)
    ensures Sent(ready, s, s2)
  {
    forall r: Rn
      ensures Intended(s2, r) == Intended(s, r)
      ensures if Pending(s2, r) then Pending(s, r) && Told(s2, r) == Told(s, r) else Told(s2, r) == Intended(s, r)
      ensures Announcing(s1, r) ==> Announcing(s, r)
    {
      assert Intended(s1, r) == Intended(s, r);
    }
  }

  /** One call that writes something. */
  lemma WriteStep(ready: Rn -> bool, s: State, s1: State, pkts: seq<Packet>, fam: Family)
    requires Inv(s) && WriteNext(ready, s).Some? && StepMeans(s, WriteNext(ready, s).value, s1, pkts, fam)
    ensures Inv(s1) && |s1.adv| < |s.adv| && Sent(ready, s, s1)
  {
    var e := WriteNext(ready, s).value;
    SendShrinks(s, e, s1, pkts, fam);
    if e.DoUpdate? {
      HeadWaits(s);
      var marked :| Updates(s, s1, pkts, marked, fam);
    }
  }

  lemma SentNothing(ready: Rn -> bool, s: State)
    ensures Sent(ready, s, s)
  {
  }

  /** What n calls lead to from s, said of the state they end in. */
  ghost predicate Ends(ready: Rn -> bool, s: State, s': State) {
    Inv(s') && Sent(ready, s, s') && WriteNext(ready, s') == None
  }

  lemma EndsLater(ready: Rn -> bool, s: State, s1: State, s': State)
    requires Sent(ready, s, s1) && Ends(ready, s1, s')
    ensures Ends(ready, s, s')
  {
    SentTwice(ready, s, s1, s');
  }

  lemma {:induction false} WriteAllStops(step: Stepper, ready: Rn -> bool, s: State, fam: Family, n: nat)
    requires Sound(step) && Inv(s) && |s.adv| <= n
    ensures Ends(ready, s, WriteAll(step, ready, s, fam, n).s)
    decreases n
  {
    var e := WriteNext(ready, s);
    if e.None? {
      SentNothing(ready, s);
    } else {
      var (s1, pkts) := step(s, e.value, fam);
      assert Inv(s1) && |s1.adv| < |s.adv| && Sent(ready, s, s1) by {
        WriteStep(ready, s, s1, pkts, fam);
      }
      WriteAllStops(step, ready, s1, fam, n - 1);
      EndsLater(ready, s, s1, WriteAll(step, ready, s1, fam, n - 1).s);
    }
  }

  /** Nothing is on the withdraw FIFO exactly when everything that waits is an announcement. */
  lemma OnlyAnnouncements(s: State)
    requires Inv(s)
    ensures s.withdraw == [] <==> forall r :: Pending(s, r) ==> Intended(s, r).Some?
  {
    if s.withdraw != [] {
      HeadOfWithdraw(s);
      var v := s.withdraw[0];
      assert AdvOk(s, v);
      AdjAtIs(s, s.adv[v].adj);
      assert Pending(s, s.adv[v].rn) && Intended(s, s.adv[v].rn) == None;
    } else {
      forall r: Rn | Pending(s, r)
        ensures Intended(s, r).Some?
      {
        AdjAtHome(s, r);
        var a := AdjAt(s, r).value;
        assert AdjOk(s, a) && AdvOk(s, s.adj[a].adv.value) && QueuedOk(s, s.adj[a].adv.value);
      }
    }
  }

  /** No withdrawal comes behind another message. */
  ghost predicate WithdrawalsLead(sent: seq<Packet>) {
    forall i, j | 0 <= i < j < |sent| :: sent[j].Withdrawal? ==> sent[i].Withdrawal?
  }

  ghost predicate NoWithdrawal(sent: seq<Packet>) {
    forall i | 0 <= i < |sent| :: !sent[i].Withdrawal?
  }

  lemma WriteOrder(ready: Rn -> bool, s: State, s1: State, pkts: seq<Packet>, fam: Family)
    requires Inv(s) && WriteNext(ready, s).Some? && StepMeans(s, WriteNext(ready, s).value, s1, pkts, fam)
    ensures if s.withdraw == [] then NoWithdrawal(pkts) && Inv(s1) && s1.withdraw == []
            else forall i | 0 <= i < |pkts| :: pkts[i].Withdrawal?
  {
    if s.withdraw == [] {
      var marked :| Updates(s, s1, pkts, marked, fam);
      OnlyAnnouncements(s);
      OnlyAnnouncements(s1);
    }
  }

  lemma {:induction false} WithdrawalsFirst(step: Stepper, ready: Rn -> bool, s: State, fam: Family, n: nat)
    requires Sound(step) && Inv(s)
    ensures WithdrawalsLead(WriteAll(step, ready, s, fam, n).sent)
    ensures s.withdraw == [] ==> NoWithdrawal(WriteAll(step, ready, s, fam, n).sent)
    decreases n
  {
    var e := WriteNext(ready, s);
    if n > 0 && e.Some? {
      var (s1, pkts) := step(s, e.value, fam);
      WriteOrder(ready, s, s1, pkts, fam);
      WithdrawalsFirst(step, ready, s1, fam, n - 1);
    }
  }

  /** What repeated calls of bgp_write_packet leave behind. All withdrawals are out; an update waits only
      behind a first record that is not ready; what waits was waiting before and all else is told as
      intended. With every announcement ready all is sent, and with none ready none. */
  lemma WrittenInOrder(ready: Rn -> bool, s: State, fam: Family)
    requires Inv(s)
    ensures var s' := WriteAll(Step, ready, s, fam, |s.adv|).s;
      && Inv(s') && Sent(ready, s, s') && s'.withdraw == []
      && (s'.update != [] ==> s'.update[0] in s'.adv && !ready(s'.adv[s'.update[0]].rn))
      && ((forall r :: Announcing(s, r) ==> ready(r)) ==> Drained(s, s'))
  {
    StepIsSound();
    var s' := WriteAll(Step, ready, s, fam, |s.adv|).s;
    WriteAllStops(Step, ready, s, fam, |s.adv|);
    if s'.update != [] {
      HeadWaits(s');
    } else {
      forall r: Rn ensures Told(s', r) == Intended(s', r) { NothingPending(s', r); }
    }
  }
}
