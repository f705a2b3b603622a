/**
 The code of bgp_advertise.c and of the two senders, step by step on the peer's own tables.
 Each method computes the function of the same name in AdjRibOut or AdjRibSync.
 */
module AdjRibPeer {
  import opened Wrappers
  import opened AdjRibOut
  import Sync = AdjRibSync

  class Peer {
    const self: nat
    var list: map<Rn, seq<AdjId>>
    var adj: map<AdjId, AdjOut>
    var adv: map<AdvId, Adv>
    var baa: map<BaaId, Baa>
    var hash: map<Attr, BaaId>
    var update: seq<AdvId>
    var withdraw: seq<AdvId>
    var scount: int
    var next: nat

    ghost function Snap(): State
      reads this
    {
      State(self, list, adj, adv, baa, hash, update, withdraw, scount, next)
    }

    /** bgp_sync_init */
    constructor (self: nat)
      ensures Snap() == Sync.Init(self) && Inv(Snap())
    {
      this.self := self;
      list, adj, adv, baa, hash := map[], map[], map[], map[], map[];
      update, withdraw, scount, next := [], [], 0, 0;
      new;
      Sync.InitInv(self);
    }

    /** The search for this peer's adj-out in the list of a node. */
    method FindAdj(rn: Rn) returns (r: Option<AdjId>)
      ensures r == AdjAt(Snap(), rn)
    {
      var l := if rn in list then list[rn] else [];
      var i := 0;
      while i < |l| && !(l[i] in adj && adj[l[i]].peer == self)
        invariant 0 <= i <= |l|
        invariant FindIn(Snap(), l) == FindIn(Snap(), l[i..])
      {
        assert l[i..][1..] == l[i + 1..];
        i := i + 1;
      }
      r := if i < |l| then Some(l[i]) else None;
    }

    /** bgp_adj_out_lookup answers whether the peer is meant to hold rn. */
    method AdjOutLookup(rn: Rn) returns (r: bool)
      requires Inv(Snap())
      ensures r <==> Intended(Snap(), rn).Some?
    {
      LookupIsIntended(Snap(), rn);
      var a := FindAdj(rn);
      if a.None? {
        return false;
      }
      AdjAtHome(Snap(), rn);
      assert AdjOk(Snap(), a.value);
      if adj[a.value].adv.Some? {
        return adv[adj[a.value].adv.value].baa.Some?;
      }
      return adj[a.value].attr.Some?;
    }

    /** bgp_advertise_intern */
    method AdvertiseIntern(attr: Attr) returns (b: BaaId)
      requires attr in hash ==> hash[attr] in baa
      modifies this`hash, this`baa, this`next
      ensures (Snap(), b) == Intern(old(Snap()), attr)
    {
      if attr in hash {
        b := hash[attr];
      } else {
        b := next;
        next := next + 1;
        baa := baa[b := Baa(attr, [], 0)];
        hash := hash[attr := b];
      }
      baa := baa[b := baa[b].(refcnt := baa[b].refcnt + 1)];
      assert attr !in old(hash) ==> baa == old(baa)[b := Baa(attr, [], 1)];
    }

    /** bgp_advertise_unintern */
    method AdvertiseUnintern(b: BaaId)
      requires b in baa
      modifies this`hash, this`baa
      ensures Snap() == Unintern(old(Snap()), b)
    {
      if baa[b].refcnt > 0 {
        baa := baa[b := baa[b].(refcnt := baa[b].refcnt - 1)];
      }
      if baa[b].refcnt == 0 {
        hash := hash - {baa[b].attr};
        baa := baa - {b};
      }
    }

    /** bgp_advertise_clean */
    method AdvertiseClean(a: AdjId) returns (nxt: Option<AdvId>)
      requires CanClean(Snap(), a)
      modifies this
      ensures (Snap(), nxt) == Clean(old(Snap()), a)
    {
      var v := adj[a].adv.value;
      nxt := None;
      if adv[v].baa.Some? {
        var b := adv[v].baa.value;
        baa := baa[b := baa[b].(chain := Without(baa[b].chain, v))];
        if baa[b].chain != [] {
          nxt := Some(baa[b].chain[0]);
        }
        AdvertiseUnintern(b);
      }
      update, withdraw := Without(update, v), Without(withdraw, v);
      adv := adv - {v};
      adj := adj[a := adj[a].(adv := None)];
    }

    /** The adj-out of rn for this peer, allocated and linked if it is not there yet. */
    method FindOrAddAdj(rn: Rn) returns (a: AdjId)
      modifies this`list, this`adj, this`next
      ensures (Snap(), a) == EnsureAdj(old(Snap()), rn)
    {
      var found := FindAdj(rn);
      if found.None? {
        a := next;
        next := next + 1;
        list := list[rn := [a] + if rn in list then list[rn] else []];
        adj := adj[a := AdjOut(self, rn, None, None)];
      } else {
        a := found.value;
      }
    }

    /** A pending record of the adj-out, if there is one, goes before a new decision. */
    method CleanIfPending(a: AdjId)
      requires InvBut(Snap(), Some(a)) && Mine(Snap(), a)
      modifies this
      ensures Snap() == CleanPending(old(Snap()), a)
    {
      if adj[a].adv.Some? {
        PendingLive(Snap(), a);
        var _ := AdvertiseClean(a);
      }
    }

    /** The new advertisement of bgp_adj_out_set. */
    method AddAdvertisement(a: AdjId, attr: Attr)
      requires a in adj && (attr in hash ==> hash[attr] in baa)
      modifies this
      ensures Snap() == Announce(old(Snap()), a, attr)
    {
      var b := AdvertiseIntern(attr);
      var v := next;
      next := next + 1;
      adv := adv[v := Adv(adj[a].home, a, Some(b))];
      adj := adj[a := adj[a].(adv := Some(v))];
      baa := baa[b := baa[b].(chain := [v] + baa[b].chain)];
      update := update + [v];
    }

    /** bgp_adj_out_set */
    method AdjOutSet(rn: Rn, attr: Attr)
      requires Inv(Snap())
      modifies this
      ensures Snap() == Set(old(Snap()), rn, attr) && Inv(Snap())
    {
      SetMeans(Snap(), rn, attr);
      EnsureAdjKeeps(Snap(), rn);
      var a := FindOrAddAdj(rn);
      CleanPendingKeeps(Snap(), a);
      CleanIfPending(a);
      assert HashOk(Snap(), attr);
      AddAdvertisement(a, attr);
    }

    /** The withdraw advertisement of bgp_adj_out_unset. */
    method AddWithdraw(a: AdjId)
      requires a in adj
      modifies this`adv, this`adj, this`withdraw, this`next
      ensures Snap() == Retract(old(Snap()), a)
    {
      var v := next;
      next := next + 1;
      adv := adv[v := Adv(adj[a].home, a, None)];
      adj := adj[a := adj[a].(adv := Some(v))];
      withdraw := withdraw + [v];
    }

    /** BGP_ADJ_OUT_DEL, bgp_adj_out_free */
    method UnlinkAdj(rn: Rn, a: AdjId)
      requires a in adj && adj[a].home == rn
      modifies this`list, this`adj
      ensures Snap() == DropAdj(old(Snap()), a)
    {
      list := list[rn := Without(if rn in list then list[rn] else [], a)];
      adj := adj - {a};
    }

    /** bgp_adj_out_unset */
    method AdjOutUnset(rn: Rn)
      requires Inv(Snap())
      modifies this
      ensures Snap() == Unset(old(Snap()), rn) && Inv(Snap())
    {
      UnsetMeans(Snap(), rn);
      AdjAtHome(Snap(), rn);
      var found := FindAdj(rn);
      if found.None? {
        return;
      }
      var a := found.value;
      CleanPendingKeeps(Snap(), a);
      CleanIfPending(a);
      if adj[a].attr.Some? {
        AddWithdraw(a);
      } else {
        UnlinkAdj(rn, a);
      }
    }

    /** The synchronisation step of bgp_update_packet's loop. */
    method SendOneRecord(v: AdvId) returns (nxt: Option<AdvId>)
      requires Inv(Snap()) && CanSend(Snap(), v)
      modifies this
      ensures (Snap(), nxt) == SendRecord(old(Snap()), v)
    {
      ghost var s := Snap();
      SendOneMeans(s, v);
      var a := adv[v].adj;
      MarkTold(a, baa[adv[v].baa.value].attr);
      nxt := AdvertiseClean(a);
    }

    /** The peer is told the attribute: one more prefix if it held none. */
    method MarkTold(a: AdjId, attr: Attr)
      requires a in adj
      modifies this`adj, this`scount
      ensures Snap() == SetTold(old(Snap()), a, Some(attr))
    {
      if adj[a].attr.None? {
        scount := scount + 1;
      }
      adj := adj[a := adj[a].(attr := Some(attr))];
    }

    /** The same, under the name the loop below knows it by. */
    method SendVia(ghost send: Sync.Sender, v: AdvId) returns (nxt: Option<AdvId>)
      requires IsSendRecord(send) && Sync.Sends(send) && Inv(Snap()) && CanSend(Snap(), v)
      modifies this
      ensures (Snap(), nxt) == send(old(Snap()), v)
      ensures Inv(Snap()) && (nxt.Some? ==> CanSend(Snap(), nxt.value)) && |adv| < |old(adv)|
    {
      assert Agrees(send, Snap(), v) && Sync.SendsAt(send, Snap(), v);
      nxt := SendOneRecord(v);
    }

    /** The loop of bgp_update_packet after the first prefix. */
    method SendMore(ghost send: Sync.Sender, first: Option<AdvId>, roomLeft: nat) returns (put: seq<Rn>)
      requires IsSendRecord(send) && Sync.Sends(send)
      requires Inv(Snap()) && (first.Some? ==> CanSend(Snap(), first.value))
      modifies this
      ensures (Snap(), put) == Sync.More(send, old(Snap()), first, roomLeft)
    {
      put := [];
      var nxt, room: nat := first, roomLeft;
      assert [] + Sync.More(send, Snap(), nxt, room).1 == Sync.More(send, Snap(), nxt, room).1;
      while nxt.Some? && room > Sync.BGP_NLRI_LENGTH + Sync.PSIZE(adv[nxt.value].rn)
        invariant Inv(Snap()) && (nxt.Some? ==> CanSend(Snap(), nxt.value))
        invariant var (s', rest) := Sync.More(send, Snap(), nxt, room);
          Sync.More(send, old(Snap()), first, roomLeft) == (s', put + rest)
        decreases room
      {
        var rn := adv[nxt.value].rn;
        ghost var rest := Sync.More(send, Snap(), nxt, room).1;
        assert put + rest == put + [rn] + rest[1..];
        put := put + [rn];
        room := room - Sync.BGP_NLRI_LENGTH - Sync.PSIZE(rn);
        nxt := SendVia(send, nxt.value);
      }
      assert put + [] == put;
    }

    /** bgp_update_packet. */
    method UpdatePacket(fam: Sync.Family) returns (pkts: seq<Sync.Packet>, ghost marked: seq<Rn>)
      requires Inv(Snap())
      modifies this
      ensures (Snap(), pkts, marked) == Sync.UpdatePacket(SendRecord, old(Snap()), fam)
      ensures Sync.Updates(old(Snap()), Snap(), pkts, marked, fam)
    {
      Sync.SendRecordSends();
      pkts, marked := UpdateVia(SendRecord, fam);
      Sync.UpdateTells(SendRecord, old(Snap()), fam);
    }

    method UpdateVia(ghost send: Sync.Sender, fam: Sync.Family) returns (pkts: seq<Sync.Packet>, ghost marked: seq<Rn>)
      requires IsSendRecord(send) && Sync.Sends(send) && Inv(Snap())
      modifies this
      ensures (Snap(), pkts, marked) == Sync.UpdatePacket(send, old(Snap()), fam)
    {
      pkts, marked := [], [];
      if update == [] {
        return;
      }
      Sync.HeadOfUpdate(Snap());
      var v := update[0];
      assert AdvOk(Snap(), v);
      var rn, attr := adv[v].rn, baa[adv[v].baa.value].attr;
      var put := Sync.Put(fam, attr, rn);
      var nxt := SendVia(send, v);
      var rest := [];
      if fam.Unicast? {
        if put.Overrun? {
          rest := SendAll(send, nxt);
        } else {
          rest := SendMore(send, nxt, Sync.RoomLeft(attr, rn));
        }
      }
      marked := [rn] + rest;
      pkts := [Sync.Message(put, attr, [rn] + rest)];
    }

    /** The same loop behind an overrun, where the room has wrapped. */
    method SendAll(ghost send: Sync.Sender, first: Option<AdvId>) returns (put: seq<Rn>)
      requires IsSendRecord(send) && Sync.Sends(send)
      requires Inv(Snap()) && (first.Some? ==> CanSend(Snap(), first.value))
      modifies this
      ensures (Snap(), put) == Sync.All(send, old(Snap()), first)
    {
      put := [];
      var nxt := first;
      ghost var total := Sync.All(send, Snap(), nxt);
      Sync.OntoTwice([], [], total);
      while nxt.Some?
        invariant Inv(Snap()) && (nxt.Some? ==> CanSend(Snap(), nxt.value))
        invariant total == Sync.Onto(put, Sync.All(send, Snap(), nxt))
        decreases |adv|
      {
        ghost var s, v := Snap(), nxt.value;
        var rn := adv[nxt.value].rn;
        nxt := SendVia(send, nxt.value);
        Sync.AllStep(send, s, v);
        Sync.OntoTwice(put, [rn], Sync.All(send, Snap(), nxt));
        put := put + [rn];
      }
      assert put + [] == put;
    }

    /** One round of bgp_withdraw_packet: the count, then bgp_adj_out_remove. */
    method WithdrawOneRecord(v: AdvId)
      requires Inv(Snap()) && v in adv && adv[v].baa.None?
      modifies this
      ensures Snap() == WithdrawRecord(old(Snap()), v)
    {
      assert AdvOk(Snap(), v) && QueuedOk(Snap(), v);
      var a, rn := adv[v].adj, adv[v].rn;
      var _ := AdvertiseClean(a);
      scount := scount - 1;
      adj := adj[a := adj[a].(attr := None)];
      UnlinkAdj(rn, a);
    }

    method WithdrawVia(ghost w: Sync.Withdrawer, v: AdvId)
      requires IsWithdrawRecord(w) && Sync.Withdraws(w) && Inv(Snap()) && v in adv && adv[v].baa.None?
      modifies this
      ensures Snap() == w(old(Snap()), v) && Inv(Snap())
    {
      assert AgreesOnWithdraw(w, Snap(), v) && Sync.WithdrawsAt(w, Snap(), v);
      WithdrawOneRecord(v);
    }

    /** One round of the loop of bgp_withdraw_packet, if there is something to withdraw and room for it. */
    method WithdrawRound(ghost w: Sync.Withdrawer, room: nat, started: bool, ghost fam: Sync.Family)
      returns (sent: seq<Rn>, room': nat)
      requires IsWithdrawRecord(w) && Sync.Withdraws(w) && Inv(Snap())
      modifies this
      ensures Inv(Snap()) && if sent == [] then room' == room else room' < room
      ensures var total := Sync.WithdrawMore(w, old(Snap()), room, started, fam);
        if sent == [] || !fam.Unicast? then total == (Snap(), sent)
        else total == Sync.Onto(sent, Sync.WithdrawMore(w, Snap(), room', true, fam))
    {
      sent, room' := [], room;
      if withdraw != [] {
        Sync.HeadOfWithdraw(Snap());
        var v := withdraw[0];
        var rn := adv[v].rn;
        if room >= Sync.BGP_NLRI_LENGTH + Sync.BGP_TOTAL_ATTR_LEN + Sync.PSIZE(rn) {
          sent, room' := [rn], Sync.WithdrawRoom(room, started, rn);
          WithdrawVia(w, v);
        }
      }
    }

    /** The loop of bgp_withdraw_packet. */
    method WithdrawLoop(ghost w: Sync.Withdrawer, fam: Sync.Family) returns (rns: seq<Rn>)
      requires IsWithdrawRecord(w) && Sync.Withdraws(w) && Inv(Snap())
      modifies this
      ensures (Snap(), rns) == Sync.WithdrawMore(w, old(Snap()), Sync.BGP_MAX_PACKET_SIZE, false, fam)
    {
      ghost var total := Sync.WithdrawMore(w, Snap(), Sync.BGP_MAX_PACKET_SIZE, false, fam);
      var room: nat, sent;
      rns, room := WithdrawRound(w, Sync.BGP_MAX_PACKET_SIZE, false, fam);
      sent := rns;
      while fam.Unicast? && sent != []
        invariant Inv(Snap())
        invariant if sent == [] || !fam.Unicast? then total == (Snap(), rns)
          else total == Sync.Onto(rns, Sync.WithdrawMore(w, Snap(), room, true, fam))
        decreases room, |sent|
      {
        ghost var before := rns;
        sent, room := WithdrawRound(w, room, true, fam);
        rns := rns + sent;
        Sync.OntoTwice(before, sent, Sync.WithdrawMore(w, Snap(), room, true, fam));
      }
    }

    /** bgp_withdraw_packet. */
    method WithdrawPacket(fam: Sync.Family) returns (pkts: seq<Sync.Packet>)
      requires Inv(Snap())
      modifies this
      ensures (Snap(), pkts) == Sync.Step(old(Snap()), Sync.DoWithdraw, fam)
      ensures Sync.StepMeans(old(Snap()), Sync.DoWithdraw, Snap(), pkts, fam)
    {
      Sync.WithdrawRecordWithdraws();
      Sync.StepIsSound();
      ghost var s := Snap();
      var rns := WithdrawLoop(WithdrawRecord, fam);
      pkts := if rns == [] then [] else [Sync.Withdrawal(rns)];
      assert (Snap(), pkts) == Sync.Step(s, Sync.DoWithdraw, fam);
    }
  }

  ghost predicate Agrees(send: Sync.Sender, s: State, v: AdvId) {
    send(s, v) == SendRecord(s, v)
  }

  ghost predicate IsSendRecord(send: Sync.Sender) {
    forall s, v {:trigger Agrees(send, s, v)} :: Agrees(send, s, v)
  }

  ghost predicate AgreesOnWithdraw(w: Sync.Withdrawer, s: State, v: AdvId) {
    w(s, v) == WithdrawRecord(s, v)
  }

  ghost predicate IsWithdrawRecord(w: Sync.Withdrawer) {
    forall s, v {:trigger AgreesOnWithdraw(w, s, v)} :: AgreesOnWithdraw(w, s, v)
  }
}
