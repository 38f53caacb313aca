/**
 A node's own public address, as its peers report it: one slot per family, trusted reports adopted at
 once, untrusted ones on a quorum of two distinct devices.
 */
module Reflexive {
  import opened Wrappers

  const QUORUM: nat := 2
  const MAX_PENDING: nat := 8

  // A socket address; the ip is the number its octets spell.
  datatype Addr =
    | V4(ip: nat, port: nat)
    | V6(ip: nat, port: nat, flow: nat, zone: nat)

  predicate PrivateV4(ip: nat) {
    var a, b := ip / 0x100_0000, ip / 0x1_0000 % 256;
    a == 10 || (a == 172 && 16 <= b <= 31) || (a == 192 && b == 168) || (a == 100 && 64 <= b <= 127)
  }

  // fc00::/7 or fe80::/10.
  predicate LocalV6(ip: nat) {
    ip / 0x200_0000_0000_0000_0000_0000_0000_0000 == 0x7E || ip / 0x40_0000_0000_0000_0000_0000_0000_0000 == 0x3FA
  }

  predicate Lan(a: Addr) {
    match a
    case V4(ip, _) => PrivateV4(ip)
    case V6(ip, _, _, _) => LocalV6(ip)
  }

  // The LAN blocks as ranges: 10/8, 100.64/10, 172.16/12 and 192.168/16; fc00::/7 and fe80::/10.
  lemma LanBlocks(a: Addr)
    ensures a.V4? && a.ip < 0x1_0000_0000 ==>
              (Lan(a) <==> 0x0A00_0000 <= a.ip <= 0x0AFF_FFFF || 0x6440_0000 <= a.ip <= 0x647F_FFFF
                           || 0xAC10_0000 <= a.ip <= 0xAC1F_FFFF || 0xC0A8_0000 <= a.ip <= 0xC0A8_FFFF)
    ensures a.V6? ==>
              (Lan(a) <==>
                || 0xFC00_0000_0000_0000_0000_0000_0000_0000 <= a.ip <= 0xFDFF_FFFF_FFFF_FFFF_FFFF_FFFF_FFFF_FFFF
                || 0xFE80_0000_0000_0000_0000_0000_0000_0000 <= a.ip <= 0xFEBF_FFFF_FFFF_FFFF_FFFF_FFFF_FFFF_FFFF)
  {
  }

  predicate Multicast(a: Addr) {
    match a
    case V4(ip, _) => 224 <= ip / 0x100_0000 <= 239
    case V6(ip, _, _, _) => ip / 0x100_0000_0000_0000_0000_0000_0000_0000 == 0xFF
  }

  predicate Bogus(a: Addr) {
    a.ip == 0 || Multicast(a) || (a.V4? && a.ip == 0xFFFF_FFFF) || a.port == 0
  }

  datatype Vote = Vote(addr: Addr, voters: seq<nat>)

  datatype State = State(v4: Option<Addr>, v6: Option<Addr>, votes: seq<Vote>)

  const FRESH: State := State(None, None, [])

  function Slot(s: State, a: Addr): Option<Addr> {
    if a.V4? then s.v4 else s.v6
  }

  function WithSlot(s: State, a: Addr): State {
    if a.V4? then s.(v4 := Some(a)) else s.(v6 := Some(a))
  }

  function IndexOf(votes: seq<Vote>, a: Addr): (i: nat)
    ensures i <= |votes| && (i < |votes| ==> votes[i].addr == a)
    ensures forall j :: 0 <= j < i ==> votes[j].addr != a
  {
    if votes == [] then 0 else if votes[0].addr == a then 0 else 1 + IndexOf(votes[1..], a)
  }

  // The pending list once `a` has an entry; a full list gives up its oldest.
  function Opened(votes: seq<Vote>, a: Addr): (r: seq<Vote>)
    ensures |r| > 0
  {
    if IndexOf(votes, a) < |votes| then votes
    else (if |votes| >= MAX_PENDING then votes[1..] else votes) + [Vote(a, [])]
  }

  function EntryAt(votes: seq<Vote>, a: Addr): (i: nat)
    ensures i < |Opened(votes, a)| && Opened(votes, a)[i].addr == a
  {
    if IndexOf(votes, a) < |votes| then IndexOf(votes, a) else |Opened(votes, a)| - 1
  }

  function Joined(voters: seq<nat>, d: nat): seq<nat> {
    if d in voters then voters else voters + [d]
  }

  function Voted(votes: seq<Vote>, a: Addr, d: nat): (r: seq<Vote>)
    ensures EntryAt(votes, a) < |r|
  {
    var i := EntryAt(votes, a);
    Opened(votes, a)[i := Vote(a, Joined(Opened(votes, a)[i].voters, d))]
  }

  function Retain(votes: seq<Vote>, a: Addr): (r: seq<Vote>)
    ensures forall v :: v in r <==> v in votes && v.addr != a
    ensures |r| <= |votes|
  {
    if votes == [] then []
    else (if votes[0].addr != a then [votes[0]] else []) + Retain(votes[1..], a)
  }

  // A LAN report may not unseat a public address, and a held address is no news.
  predicate Welcome(s: State, a: Addr) {
    !(Lan(a) && Slot(s, a).Some? && !Lan(Slot(s, a).value)) && Slot(s, a) != Some(a)
  }

  function Adopt(s: State, a: Addr): State {
    if Welcome(s, a) then WithSlot(s, a).(votes := Retain(s.votes, a)) else s
  }

  function Recorded(s: State, a: Addr, from: nat, trusted: bool): State {
    if Bogus(a) then s
    else if trusted then Adopt(s, a)
    else
      var t := s.(votes := Voted(s.votes, a, from));
      if |t.votes[EntryAt(s.votes, a)].voters| >= QUORUM then Adopt(t, a) else t
  }

  // ---- what a report does, on the reports alone ----

  // No address pends twice and no device votes twice for one.
  ghost predicate Tidy(votes: seq<Vote>) {
    && (forall i, j :: 0 <= i < j < |votes| ==> votes[i].addr != votes[j].addr)
    && (forall v, i, j :: v in votes && 0 <= i < j < |v.voters| ==> v.voters[i] != v.voters[j])
  }

  ghost predicate Pends(votes: seq<Vote>, a: Addr, d: nat) {
    exists v :: v in votes && v.addr == a && d in v.voters
  }

  ghost predicate HasEntry(votes: seq<Vote>, a: Addr) {
    exists v :: v in votes && v.addr == a
  }

  // A trusted report is taken at its word, any other when a second device has named the address.
  ghost predicate Believed(votes: seq<Vote>, a: Addr, from: nat, trusted: bool) {
    trusted || exists d :: d != from && Pends(votes, a, d)
  }

  // What the report leaves in its family's slot: the address, unless it is bogus, not yet believed, or a
  // LAN address where a public one is held.
  ghost predicate Takes(s: State, a: Addr, from: nat, trusted: bool) {
    var held := if a.V4? then s.v4 else s.v6;
    !Bogus(a) && Believed(s.votes, a, from, trusted) && !(Lan(a) && held.Some? && !Lan(held.value))
  }

  lemma EntryIsTheOne(votes: seq<Vote>, a: Addr)
    requires Tidy(votes)
    ensures HasEntry(votes, a) <==> IndexOf(votes, a) < |votes|
    ensures forall v :: v in votes && v.addr == a ==> IndexOf(votes, a) < |votes| && v == votes[IndexOf(votes, a)]
  {
  }

  lemma TwoVoters(voters: seq<nat>, from: nat)
    requires forall i, j :: 0 <= i < j < |voters| ==> voters[i] != voters[j]
    ensures |Joined(voters, from)| >= QUORUM <==> exists d :: d in voters && d != from
  {
    if |voters| >= 2 {
      assert voters[0] in voters && voters[1] in voters;
      assert voters[0] != from || voters[1] != from;
    } else if |voters| == 1 {
      assert voters[0] in voters;
    }
  }

  // A report reaches the quorum exactly when another device had named the address.
  lemma QuorumIff(votes: seq<Vote>, a: Addr, from: nat)
    requires Tidy(votes)
    ensures |Voted(votes, a, from)[EntryAt(votes, a)].voters| >= QUORUM <==> exists d :: d != from && Pends(votes, a, d)
  {
    EntryIsTheOne(votes, a);
    var i := EntryAt(votes, a);
    var before := Opened(votes, a)[i].voters;
    if IndexOf(votes, a) < |votes| {
      assert Opened(votes, a)[i] in votes;
      forall d ensures d in before <==> Pends(votes, a, d) {
      }
    }
    TwoVoters(before, from);
  }

  // The slot of the address's family holds it exactly when the report is taken; the other never moves.
  lemma SlotsAfter(s: State, a: Addr, from: nat, trusted: bool)
    requires Tidy(s.votes)
    ensures var t := Recorded(s, a, from, trusted);
            && (a.V4? ==> t.v6 == s.v6 && t.v4 == if Takes(s, a, from, trusted) then Some(a) else s.v4)
            && (a.V6? ==> t.v4 == s.v4 && t.v6 == if Takes(s, a, from, trusted) then Some(a) else s.v6)
  {
    if !Bogus(a) && !trusted {
      QuorumIff(s.votes, a, from);
    }
  }

  // The oldest pending address gives way to a new one when eight are pending.
  ghost predicate GivesWay(votes: seq<Vote>, a: Addr, trusted: bool, v: Vote) {
    !trusted && !Bogus(a) && !HasEntry(votes, a) && |votes| >= MAX_PENDING && v == votes[0]
  }

  // What is pending after a report: the others' entries but the one that gives way; none for an address
  // just taken; and otherwise its voters with the reporter among them, a trusted report adding none.
  ghost predicate PendingAfter(s: State, a: Addr, from: nat, trusted: bool, t: State) {
    var taken := Takes(s, a, from, trusted) && (if a.V4? then s.v4 else s.v6) != Some(a);
    && (forall v: Vote :: v.addr != a ==> (v in t.votes <==> v in s.votes && !GivesWay(s.votes, a, trusted, v)))
    && (taken ==> !HasEntry(t.votes, a))
    && (!taken && (trusted || Bogus(a)) ==> t.votes == s.votes)
    && (!taken && !trusted && !Bogus(a) ==> forall d :: Pends(t.votes, a, d) <==> d == from || Pends(s.votes, a, d))
  }

  lemma EntryAfterVote(votes: seq<Vote>, a: Addr, from: nat)
    requires Tidy(votes)
    ensures var i, after := EntryAt(votes, a), Voted(votes, a, from);
            && after[i] == Vote(a, Joined(Opened(votes, a)[i].voters, from))
            && (forall j :: 0 <= j < |after| && j != i ==> after[j] == Opened(votes, a)[j] && after[j].addr != a)
  {
    EntryIsTheOne(votes, a);
  }

  lemma VotedIsTidy(votes: seq<Vote>, a: Addr, from: nat)
    requires Tidy(votes)
    ensures Tidy(Voted(votes, a, from))
  {
    EntryIsTheOne(votes, a);
    EntryAfterVote(votes, a, from);
    var i, before, after := EntryAt(votes, a), Opened(votes, a), Voted(votes, a, from);
    assert Tidy(before);
    assert before[i] in before;
    assert forall v :: v in after ==> v == after[i] || v in before;
  }

  lemma VotersAfter(votes: seq<Vote>, a: Addr, from: nat, d: nat)
    requires Tidy(votes)
    ensures Pends(Voted(votes, a, from), a, d) <==> d == from || Pends(votes, a, d)
  {
    EntryIsTheOne(votes, a);
    EntryAfterVote(votes, a, from);
    var i, before, after := EntryAt(votes, a), Opened(votes, a), Voted(votes, a, from);
    assert after[i] in after && forall v :: v in after && v.addr == a ==> v == after[i];
    assert IndexOf(votes, a) < |votes| ==> before[i] in votes;
  }

  lemma OthersStay(votes: seq<Vote>, a: Addr, from: nat, v: Vote)
    requires Tidy(votes) && !Bogus(a) && v.addr != a
    ensures v in Voted(votes, a, from) <==> v in votes && !GivesWay(votes, a, false, v)
  {
    EntryIsTheOne(votes, a);
    var i, before, after := EntryAt(votes, a), Opened(votes, a), Voted(votes, a, from);
    if v in before {
      var j :| 0 <= j < |before| && before[j] == v;
      assert after[j] == v;
    }
    assert v in after ==> v in before;
    if IndexOf(votes, a) == |votes| && |votes| >= MAX_PENDING {
      assert votes == [votes[0]] + votes[1..];
    }
  }

  lemma {:induction false} RetainStaysTidy(votes: seq<Vote>, a: Addr)
    requires Tidy(votes)
    ensures Tidy(Retain(votes, a))
  {
    if votes != [] {
      assert Tidy(votes[1..]);
      RetainStaysTidy(votes[1..], a);
      assert forall v :: v in votes[1..] ==> v.addr != votes[0].addr;
    }
  }

  lemma RecordedPends(s: State, a: Addr, from: nat, trusted: bool)
    requires Tidy(s.votes)
    ensures Tidy(Recorded(s, a, from, trusted).votes)
    ensures PendingAfter(s, a, from, trusted, Recorded(s, a, from, trusted))
  {
    if !Bogus(a) {
      var votes := if trusted then s.votes else Voted(s.votes, a, from);
      RecordedIs(s, a, from, trusted, votes);
      VotedIsTidy(s.votes, a, from);
      RetainStaysTidy(votes, a);
      ThePending(s, a, from, trusted, votes, Recorded(s, a, from, trusted));
    }
  }

  lemma ThePending(s: State, a: Addr, from: nat, trusted: bool, votes: seq<Vote>, t: State)
    requires Tidy(s.votes) && !Bogus(a) && votes == if trusted then s.votes else Voted(s.votes, a, from)
    requires var taken := Takes(s, a, from, trusted) && (if a.V4? then s.v4 else s.v6) != Some(a);
             t.votes == if taken then Retain(votes, a) else votes
    ensures PendingAfter(s, a, from, trusted, t)
  {
    forall v: Vote | v.addr != a ensures v in t.votes <==> v in s.votes && !GivesWay(s.votes, a, trusted, v) {
      OthersStay(s.votes, a, from, v);
    }
    forall d ensures Pends(Voted(s.votes, a, from), a, d) <==> d == from || Pends(s.votes, a, d) {
      VotersAfter(s.votes, a, from, d);
    }
  }

  lemma RecordedIs(s: State, a: Addr, from: nat, trusted: bool, votes: seq<Vote>)
    requires Tidy(s.votes) && !Bogus(a) && votes == if trusted then s.votes else Voted(s.votes, a, from)
    ensures var taken := Takes(s, a, from, trusted) && (if a.V4? then s.v4 else s.v6) != Some(a);
            Recorded(s, a, from, trusted).votes == if taken then Retain(votes, a) else votes
  {
    if !trusted {
      QuorumIff(s.votes, a, from);
    }
  }

  class ReflexiveState {
    var v4: Option<Addr>
    var v6: Option<Addr>
    var votes: seq<Vote>

    ghost predicate Valid()
      reads this
    {
      Tidy(votes)
    }

    ghost function View(): State
      reads this
    {
      State(v4, v6, votes)
    }

    constructor ()
      ensures Valid() && View() == FRESH
    {
      v4, v6, votes := None, None, [];
    }

    // Counts the report; the oldest pending address gives way when the list is full.
    method CastVote(observed: Addr, from: nat) returns (count: nat)
      modifies this`votes
      ensures votes == Voted(old(votes), observed, from)
      ensures count == |votes[EntryAt(old(votes), observed)].voters|
    {
      var at := IndexOf(votes, observed);
      if at == |votes| {
        if |votes| >= MAX_PENDING {
          votes := votes[1..];
        }
        votes := votes + [Vote(observed, [])];
        at := |votes| - 1;
      }
      var voters := votes[at].voters;
      if from !in voters {
        voters := voters + [from];
      }
      votes := votes[at := Vote(observed, voters)];
      count := |voters|;
    }

    // The slot takes an adopted address unless it is no news or a LAN one where a public one is held.
    method Unseat(observed: Addr) returns (r: Option<Addr>)
      modifies this
      ensures View() == Adopt(old(View()), observed)
      ensures r == if v4 != old(v4) || v6 != old(v6) then Some(observed) else None
    {
      var slot := if observed.V4? then v4 else v6;
      if Lan(observed) && slot.Some? && !Lan(slot.value) {
        return None;
      }
      if slot == Some(observed) {
        return None;
      }
      if observed.V4? {
        v4 := Some(observed);
      } else {
        v6 := Some(observed);
      }
      votes := Retain(votes, observed);
      return Some(observed);
    }

    // A report that is taken puts the address in its family's slot, any other leaves both slots; Some
    // exactly when that is news.
    method Record(observed: Addr, from: nat, trusted: bool) returns (r: Option<Addr>)
      requires Valid()
      modifies this
      ensures Valid() && View() == Recorded(old(View()), observed, from, trusted)
      ensures var takes := Takes(old(View()), observed, from, trusted);
              && v4 == (if takes && observed.V4? then Some(observed) else old(v4))
              && v6 == (if takes && observed.V6? then Some(observed) else old(v6))
              && r == (if v4 != old(v4) || v6 != old(v6) then Some(observed) else None)
      ensures PendingAfter(old(View()), observed, from, trusted, View())
    {
      RecordedPends(View(), observed, from, trusted);
      SlotsAfter(View(), observed, from, trusted);
      if Bogus(observed) {
        return None;
      }
      if !trusted {
        var count := CastVote(observed, from);
        if count < QUORUM {
          return None;
        }
      }
      r := Unseat(observed);
    }

    method Clear()
      modifies this
      ensures Valid() && View() == FRESH
    {
      v4, v6, votes := None, None, [];
    }
  }

  // ---- runs ----

  datatype Event = Observe(addr: Addr, from: nat, trusted: bool) | Clear

  function Next(s: State, e: Event): State {
    match e
    case Observe(a, d, t) => Recorded(s, a, d, t)
    case Clear => FRESH
  }

  function Play(run: seq<Event>): State {
    if run == [] then FRESH else Next(Play(run[..|run| - 1]), run[|run| - 1])
  }

  function SinceClear(run: seq<Event>): (r: seq<Event>)
    ensures Clear !in r
  {
    if run == [] || run[|run| - 1].Clear? then [] else SinceClear(run[..|run| - 1]) + [run[|run| - 1]]
  }

  // Nothing before the last clear matters.
  lemma {:induction false} ClearForgets(run: seq<Event>)
    ensures Play(run) == Play(SinceClear(run))
  {
    if run != [] && !run[|run| - 1].Clear? {
      ClearForgets(run[..|run| - 1]);
      var since := SinceClear(run);
      assert since[..|since| - 1] == SinceClear(run[..|run| - 1]);
    }
  }

  // A trusted source named it, or two distinct devices did.
  ghost predicate Vouched(run: seq<Event>, a: Addr) {
    || (exists d :: Observe(a, d, true) in run)
    || (exists d, e :: d != e && Observe(a, d, false) in run && Observe(a, e, false) in run)
  }

  ghost predicate Earned(run: seq<Event>, v: Vote) {
    && !Bogus(v.addr)
    && (forall d :: d in v.voters ==> Observe(v.addr, d, false) in run)
    && (forall i, j :: 0 <= i < j < |v.voters| ==> v.voters[i] != v.voters[j])
  }

  ghost predicate VotesInv(run: seq<Event>, votes: seq<Vote>) {
    && |votes| <= MAX_PENDING
    && (forall i, j :: 0 <= i < j < |votes| ==> votes[i].addr != votes[j].addr)
    && (forall v :: v in votes ==> Earned(run, v))
  }

  ghost predicate SlotInv(run: seq<Event>, held: Option<Addr>, v4: bool) {
    held.Some? ==> held.value.V4? == v4 && !Bogus(held.value) && Vouched(run, held.value)
  }

  ghost predicate RunInv(run: seq<Event>, s: State) {
    VotesInv(run, s.votes) && SlotInv(run, s.v4, true) && SlotInv(run, s.v6, false)
  }

  lemma LongerRun(run: seq<Event>, e: Event, s: State)
    requires RunInv(run, s)
    ensures RunInv(run + [e], s)
  {
    forall v | v in s.votes ensures Earned(run + [e], v) {
      assert Earned(run, v);
    }
    if s.v4.Some? {
      StillVouched(run, e, s.v4.value);
    }
    if s.v6.Some? {
      StillVouched(run, e, s.v6.value);
    }
  }

  lemma StillVouched(run: seq<Event>, e: Event, a: Addr)
    requires Vouched(run, a)
    ensures Vouched(run + [e], a)
  {
    if d :| Observe(a, d, true) in run {
      assert Observe(a, d, true) in run + [e];
    } else {
      var d, f :| d != f && Observe(a, d, false) in run && Observe(a, f, false) in run;
      assert Observe(a, d, false) in run + [e] && Observe(a, f, false) in run + [e];
    }
  }

  lemma OpenedKeepsInv(run: seq<Event>, votes: seq<Vote>, a: Addr)
    requires VotesInv(run, votes) && !Bogus(a)
    ensures VotesInv(run, Opened(votes, a))
  {
    var r := Opened(votes, a);
    forall v | v in r ensures Earned(run, v) {
      assert v in votes || v == Vote(a, []);
    }
  }

  lemma VotedKeepsInv(run: seq<Event>, votes: seq<Vote>, a: Addr, d: nat)
    requires VotesInv(run, votes) && !Bogus(a) && Observe(a, d, false) in run
    ensures VotesInv(run, Voted(votes, a, d))
  {
    OpenedKeepsInv(run, votes, a);
    var o, i := Opened(votes, a), EntryAt(votes, a);
    var r := Voted(votes, a, d);
    assert Earned(run, o[i]);
    forall v | v in r ensures Earned(run, v) {
      assert v in o || v == r[i];
    }
  }

  lemma {:induction false} RetainKeepsInv(run: seq<Event>, votes: seq<Vote>, a: Addr)
    requires VotesInv(run, votes)
    ensures VotesInv(run, Retain(votes, a))
  {
    if votes != [] {
      var rest := votes[1..];
      assert VotesInv(run, rest);
      RetainKeepsInv(run, rest, a);
      assert forall v :: v in Retain(rest, a) ==> v.addr != votes[0].addr;
    }
  }

  lemma AdoptKeepsInv(run: seq<Event>, s: State, a: Addr)
    requires RunInv(run, s) && !Bogus(a) && Vouched(run, a)
    ensures RunInv(run, Adopt(s, a))
  {
    RetainKeepsInv(run, s.votes, a);
  }

  lemma QuorumVouches(run: seq<Event>, v: Vote)
    requires Earned(run, v) && |v.voters| >= QUORUM
    ensures Vouched(run, v.addr)
  {
    var d, e := v.voters[0], v.voters[1];
    assert d != e && Observe(v.addr, d, false) in run && Observe(v.addr, e, false) in run;
  }

  lemma ObserveKeepsInv(run: seq<Event>, s: State, a: Addr, d: nat, trusted: bool)
    requires RunInv(run, s) && Observe(a, d, trusted) in run
    ensures RunInv(run, Recorded(s, a, d, trusted))
  {
    if !Bogus(a) {
      if trusted {
        AdoptKeepsInv(run, s, a);
      } else {
        VotedKeepsInv(run, s.votes, a, d);
        var votes, i := Voted(s.votes, a, d), EntryAt(s.votes, a);
        if |votes[i].voters| >= QUORUM {
          QuorumVouches(run, votes[i]);
          AdoptKeepsInv(run, s.(votes := votes), a);
        }
      }
    }
  }

  lemma {:induction false} UnclearedRunKeepsInv(run: seq<Event>)
    requires Clear !in run
    ensures RunInv(run, Play(run))
  {
    if run != [] {
      var front, e := run[..|run| - 1], run[|run| - 1];
      UnclearedRunKeepsInv(front);
      LongerRun(front, e, Play(front));
      assert front + [e] == run;
      ObserveKeepsInv(run, Play(front), e.addr, e.from, e.trusted);
    }
  }

  // After any run: each slot holds only its own family, never a bogus address, and one a trusted
  // source or two distinct devices named since the last clear; at most eight distinct addresses are
  // pending, each with distinct voters that did report it.
  lemma EveryRunKeepsInv(run: seq<Event>)
    ensures RunInv(SinceClear(run), Play(run))
  {
    UnclearedRunKeepsInv(SinceClear(run));
    ClearForgets(run);
  }

  // A held public address is never replaced by a LAN one, however many reports follow.
  lemma {:induction false} PublicStaysPublic(run: seq<Event>, more: seq<Event>, v4: bool)
    requires Clear !in more
    requires var held := if v4 then Play(run).v4 else Play(run).v6; held.Some? && !Lan(held.value)
    ensures var held := if v4 then Play(run + more).v4 else Play(run + more).v6; held.Some? && !Lan(held.value)
  {
    if more == [] {
      assert run + more == run;
    } else {
      var front, e := more[..|more| - 1], more[|more| - 1];
      PublicStaysPublic(run, front, v4);
      assert (run + more)[..|run + more| - 1] == run + front;
      EveryRunKeepsInv(run + front);
    }
  }

  // On every run: a report moves its own family's slot, to the address, exactly when it is taken.
  lemma EveryReportIsHeard(run: seq<Event>, a: Addr, from: nat, trusted: bool)
    ensures var s, t := Play(run), Play(run + [Observe(a, from, trusted)]);
            && (a.V4? ==> t.v6 == s.v6 && t.v4 == if Takes(s, a, from, trusted) then Some(a) else s.v4)
            && (a.V6? ==> t.v4 == s.v4 && t.v6 == if Takes(s, a, from, trusted) then Some(a) else s.v6)
            && PendingAfter(s, a, from, trusted, t)
  {
    EveryRunKeepsInv(run);
    assert Tidy(Play(run).votes) by {
      assert forall v :: v in Play(run).votes ==> Earned(SinceClear(run), v);
    }
    assert (run + [Observe(a, from, trusted)])[..|run|] == run;
    SlotsAfter(Play(run), a, from, trusted);
    RecordedPends(Play(run), a, from, trusted);
  }

  // ---- "each short of a quorum" ----

  ghost predicate Short(s: State) {
    forall v :: v in s.votes ==> |v.voters| < QUORUM
  }

  // A second device reports, untrusted, an address its slot does not welcome: the full count stays.
  ghost predicate UnwelcomeSecond(s: State, e: Event) {
    && e.Observe? && !e.trusted && !Bogus(e.addr)
    && (Slot(s, e.addr) == Some(e.addr) || (Lan(e.addr) && Slot(s, e.addr).Some? && !Lan(Slot(s, e.addr).value)))
    && exists v :: v in s.votes && v.addr == e.addr && v.voters != [] && e.from !in v.voters
  }

  lemma ShortUnlessUnwelcome(run: seq<Event>, e: Event)
    requires Short(Play(run))
    ensures Short(Next(Play(run), e)) <==> !UnwelcomeSecond(Play(run), e)
  {
    var s := Play(run);
    EveryRunKeepsInv(run);
    if e.Observe? && !e.trusted && !Bogus(e.addr) {
      var a := e.addr;
      var i, o, r := EntryAt(s.votes, a), Opened(s.votes, a), Voted(s.votes, a, e.from);
      forall v | v in s.votes && v.addr == a ensures v == o[i] {
        assert IndexOf(s.votes, a) < |s.votes|;
      }
      assert o[i] in s.votes || o[i] == Vote(a, []);
      assert forall v :: v in r ==> v == r[i] || v in s.votes;
      assert r[i] in r;
    }
  }

  ghost predicate ShortThroughout(run: seq<Event>) {
    forall n :: 0 <= n <= |run| ==> Short(Play(run[..n]))
  }

  ghost predicate NoUnwelcomeSecond(run: seq<Event>) {
    forall n :: 0 <= n < |run| ==> !UnwelcomeSecond(Play(run[..n]), run[n])
  }

  // Over a whole run: every pending address is short of a quorum at every point exactly when no report
  // is a second device naming an address that its slot does not welcome.
  lemma {:induction false} RunIsShortIff(run: seq<Event>)
    ensures ShortThroughout(run) <==> NoUnwelcomeSecond(run)
  {
    if run == [] {
      assert run[..0] == [];
    } else {
      var front, e := run[..|run| - 1], run[|run| - 1];
      RunIsShortIff(front);
      assert forall n :: 0 <= n <= |front| ==> run[..n] == front[..n];
      assert front[..|front|] == front && run[..|run|] == run;
      if ShortThroughout(front) {
        ShortUnlessUnwelcome(front, e);
      }
      ByLastEvent(run);
    }
  }

  lemma ByLastEvent(run: seq<Event>)
    requires run != []
    ensures var front, e := run[..|run| - 1], run[|run| - 1];
            && (ShortThroughout(run) <==> ShortThroughout(front) && Short(Next(Play(front), e)))
            && (NoUnwelcomeSecond(run) <==> NoUnwelcomeSecond(front) && !UnwelcomeSecond(Play(front), e))
  {
    ShortByLast(run);
    WelcomeByLast(run);
  }

  lemma ShortByLast(run: seq<Event>)
    requires run != []
    ensures var front, e := run[..|run| - 1], run[|run| - 1];
            ShortThroughout(run) <==> ShortThroughout(front) && Short(Next(Play(front), e))
  {
    var front, e := run[..|run| - 1], run[|run| - 1];
    assert forall n :: 0 <= n <= |front| ==> run[..n] == front[..n];
    assert run[..|run|] == run && Play(run) == Next(Play(front), e);
    if ShortThroughout(run) {
      assert Short(Play(run[..|run|]));
      forall n | 0 <= n <= |front| ensures Short(Play(front[..n])) {
        assert Short(Play(run[..n]));
      }
    }
  }

  lemma WelcomeByLast(run: seq<Event>)
    requires run != []
    ensures var front, e := run[..|run| - 1], run[|run| - 1];
            NoUnwelcomeSecond(run) <==> NoUnwelcomeSecond(front) && !UnwelcomeSecond(Play(front), e)
  {
    var front := run[..|run| - 1];
    assert forall n :: 0 <= n <= |front| ==> run[..n] == front[..n];
    assert run[..|front|] == front;
    if NoUnwelcomeSecond(run) {
      assert !UnwelcomeSecond(Play(run[..|front|]), run[|front|]);
      forall n | 0 <= n < |front| ensures !UnwelcomeSecond(Play(front[..n]), front[n]) {
        assert !UnwelcomeSecond(Play(run[..n]), run[n]);
      }
    }
  }

  // The comment's count fails in three reports: once an address is held, the devices that keep
  // reporting it pile up without bound.
  function Repeats(a: Addr, n: nat): (run: seq<Event>)
    ensures |run| == n + 1 && Clear !in run
  {
    if n == 0 then [Observe(a, 0, true)] else Repeats(a, n - 1) + [Observe(a, n, false)]
  }

  function UpTo(n: nat): (s: seq<nat>)
    ensures |s| == n && forall i :: 0 <= i < n ==> s[i] == i + 1
  {
    if n == 0 then [] else UpTo(n - 1) + [n]
  }

  lemma OneMoreVoter(s: State, a: Addr, n: nat)
    requires !Bogus(a) && n > 0 && Slot(s, a) == Some(a)
    requires s.votes == if n == 1 then [] else [Vote(a, UpTo(n - 1))]
    ensures Recorded(s, a, n, false) == s.(votes := [Vote(a, UpTo(n))])
  {
    assert Opened(s.votes, a) == [Vote(a, UpTo(n - 1))];
    assert Voted(s.votes, a, n) == [Vote(a, UpTo(n))];
  }

  lemma {:induction false} VotersPileUp(a: Addr, n: nat)
    requires !Bogus(a)
    ensures Slot(Play(Repeats(a, n)), a) == Some(a)
    ensures Play(Repeats(a, n)).votes == if n == 0 then [] else [Vote(a, UpTo(n))]
  {
    var run := Repeats(a, n);
    if n == 0 {
      assert Play(run[..0]) == FRESH;
    } else {
      assert run[..|run| - 1] == Repeats(a, n - 1);
      VotersPileUp(a, n - 1);
      OneMoreVoter(Play(Repeats(a, n - 1)), a, n);
    }
  }
}
