/**
 The fan-out register: one blob, a strict revision guard, and devices that mint or grow on what they
 read.  Every interleaving is allowed, a read may be stale, and a mint's read may fail outright.
 */
module FanoutRegister {
  import opened Wrappers

  const LAST_REV: nat := 0xFFFF_FFFF_FFFF_FFFF

  type Rev = n: nat | n <= LAST_REV

  // What the register holds: nothing, a body this build cannot parse (its revision may still read),
  // or a fan-out, known by its revision and the fingerprint of the key it carries.
  datatype Stored = Absent | Unreadable(header: Option<Rev>) | Live(rev: Rev, kfp: nat)

  // What a publisher steps over: the revision at the shared offset, 0 when there is none.
  function RevOf(s: Stored): Rev {
    match s
    case Absent => 0
    case Unreadable(h) => if h.Some? then h.value else 0
    case Live(r, _) => r
  }

  // `+ 1` on a u64.
  function Bump(r: Rev): Rev {
    if r == LAST_REV then 0 else r + 1
  }

  // The worker's guard.
  predicate Admits(s: Stored, rev: Rev) {
    rev > RevOf(s)
  }

  // ---- every interleaving ----

  datatype Kind = Mint | Grow

  datatype Landing = Landing(publisher: nat, kind: Kind, rev: Rev, kfp: nat)

  // A publish under way.  `base` is the landing count its read saw; a mint whose read failed has none.
  datatype Pending = Pending(kind: Kind, rev: Rev, kfp: nat, base: Option<nat>)

  datatype System = System(start: Stored, landings: seq<Landing>, pending: map<nat, Pending>)

  datatype Event =
    | ReadForMint(device: nat, which: Option<nat>, coined: nat)
    | ReadForGrow(device: nat, at: nat, held: nat)
    | Post(device: nat)

  function ValueAfter(s: System, n: nat): Stored
    requires n <= |s.landings|
  {
    if n == 0 then s.start else Live(s.landings[n - 1].rev, s.landings[n - 1].kfp)
  }

  function Current(s: System): Stored {
    ValueAfter(s, |s.landings|)
  }

  function MintRev(s: System, which: Option<nat>): Rev
    requires which.Some? ==> which.value <= |s.landings|
  {
    if which.Some? then Bump(RevOf(ValueAfter(s, which.value))) else 1
  }

  // A grow goes ahead only over a parseable blob whose fingerprint is its held key's.
  predicate Enabled(s: System, e: Event) {
    match e
    case ReadForMint(_, which, _) => which.Some? ==> which.value <= |s.landings|
    case ReadForGrow(_, at, held) => at <= |s.landings| && ValueAfter(s, at).Live? && ValueAfter(s, at).kfp == held
    case Post(d) => d in s.pending
  }

  predicate Lands(s: System, d: nat) {
    d in s.pending && Admits(Current(s), s.pending[d].rev)
  }

  function Next(s: System, e: Event): System
    requires Enabled(s, e)
  {
    match e
    case ReadForMint(d, which, coined) => s.(pending := s.pending[d := Pending(Mint, MintRev(s, which), coined, which)])
    case ReadForGrow(d, at, held) =>
      s.(pending := s.pending[d := Pending(Grow, Bump(RevOf(ValueAfter(s, at))), held, Some(at))])
    case Post(d) =>
      var p := s.pending[d];
      var landings := if Lands(s, d) then s.landings + [Landing(d, p.kind, p.rev, p.kfp)] else s.landings;
      System(s.start, landings, s.pending - {d})
  }

  function Play(start: Stored, trace: seq<Event>): System {
    if trace == [] then System(start, [], map[])
    else
      var s, e := Play(start, trace[..|trace| - 1]), trace[|trace| - 1];
      if Enabled(s, e) then Next(s, e) else s
  }

  ghost predicate PendingFits(s: System, p: Pending) {
    match p.base
    case None => p.kind == Mint && p.rev == 1
    case Some(b) =>
      && b <= |s.landings| && p.rev == Bump(RevOf(ValueAfter(s, b)))
      && (p.kind == Grow ==> ValueAfter(s, b).Live? && ValueAfter(s, b).kfp == p.kfp)
  }

  // A grow sits directly on the blob its publisher read.
  ghost predicate GrowFits(s: System, i: nat)
    requires i < |s.landings|
  {
    s.landings[i].kind == Grow ==>
      ValueAfter(s, i).Live? && s.landings[i].kfp == ValueAfter(s, i).kfp
        && s.landings[i].rev == ValueAfter(s, i).rev + 1
  }

  ghost predicate RegisterInv(s: System) {
    && (forall i, j :: 0 <= i < j <= |s.landings| ==> RevOf(ValueAfter(s, i)) < RevOf(ValueAfter(s, j)))
    && (forall i :: 0 <= i < |s.landings| ==> GrowFits(s, i))
    && (forall d :: d in s.pending ==> PendingFits(s, s.pending[d]))
  }

  // A publish that read the register lands exactly when nothing landed since its read and the
  // revision has not run out: the guard is a compare-and-swap.
  lemma LandsIffUntouched(s: System, d: nat)
    requires RegisterInv(s) && d in s.pending && s.pending[d].base.Some?
    ensures Lands(s, d) <==> s.pending[d].base.value == |s.landings| && RevOf(Current(s)) < LAST_REV
  {
    var p := s.pending[d];
    assert PendingFits(s, p);
    var b := p.base.value;
    assert b < |s.landings| ==> RevOf(ValueAfter(s, b)) < RevOf(ValueAfter(s, |s.landings|));
  }

  // A mint whose read failed lands only over a register with no revision to step past.
  lemma BlindMintLandsIff(s: System, d: nat)
    requires RegisterInv(s) && d in s.pending && s.pending[d].base.None?
    ensures Lands(s, d) <==> RevOf(Current(s)) == 0
  {
    assert PendingFits(s, s.pending[d]);
  }

  lemma SamePending(s: System, t: System)
    requires RegisterInv(s) && t.start == s.start && t.landings == s.landings
    requires forall d :: d in t.pending ==>
               (d in s.pending && t.pending[d] == s.pending[d]) || PendingFits(s, t.pending[d])
    ensures RegisterInv(t)
  {
    assert forall i :: 0 <= i <= |s.landings| ==> ValueAfter(t, i) == ValueAfter(s, i);
    forall i | 0 <= i < |t.landings| ensures GrowFits(t, i) {
      assert GrowFits(s, i);
    }
    forall d | d in t.pending ensures PendingFits(t, t.pending[d]) {
      assert PendingFits(s, t.pending[d]);
    }
  }

  lemma LandingKeepsInv(s: System, d: nat)
    requires RegisterInv(s) && Lands(s, d)
    ensures RegisterInv(Next(s, Post(d)))
  {
    var p, t, n := s.pending[d], Next(s, Post(d)), |s.landings|;
    assert PendingFits(s, p);
    assert forall i :: 0 <= i <= n ==> ValueAfter(t, i) == ValueAfter(s, i);
    assert ValueAfter(t, n + 1) == Live(p.rev, p.kfp);
    forall i, j | 0 <= i < j <= n + 1 ensures RevOf(ValueAfter(t, i)) < RevOf(ValueAfter(t, j)) {
      assert i < n ==> RevOf(ValueAfter(s, i)) < RevOf(ValueAfter(s, n));
    }
    forall i | 0 <= i <= n ensures GrowFits(t, i) {
      if i < n {
        assert GrowFits(s, i);
      } else if p.kind == Grow {
        LandsIffUntouched(s, d);
      }
    }
    forall e | e in t.pending ensures PendingFits(t, t.pending[e]) {
      assert PendingFits(s, s.pending[e]);
    }
  }

  lemma NextKeepsInv(s: System, e: Event)
    requires RegisterInv(s) && Enabled(s, e)
    ensures RegisterInv(Next(s, e))
  {
    if e.Post? && Lands(s, e.device) {
      LandingKeepsInv(s, e.device);
    } else {
      SamePending(s, Next(s, e));
    }
  }

  lemma {:induction false} EveryRunKeepsInv(start: Stored, trace: seq<Event>)
    ensures RegisterInv(Play(start, trace)) && Play(start, trace).start == start
  {
    if trace != [] {
      var front, e := trace[..|trace| - 1], trace[|trace| - 1];
      EveryRunKeepsInv(start, front);
      if Enabled(Play(start, front), e) {
        NextKeepsInv(Play(start, front), e);
      }
    }
  }

  // Revisions strictly rise, so each is written once.
  lemma EachRevisionWrittenOnce(start: Stored, trace: seq<Event>, i: nat, j: nat)
    requires i < |Play(start, trace).landings| && j < |Play(start, trace).landings|
    ensures i < j ==> Play(start, trace).landings[i].rev < Play(start, trace).landings[j].rev
    ensures Play(start, trace).landings[i].rev == Play(start, trace).landings[j].rev ==> i == j
    ensures Play(start, trace).landings[i].rev > RevOf(start)
  {
    EveryRunKeepsInv(start, trace);
    var s := Play(start, trace);
    assert RevOf(ValueAfter(s, i + 1)) == s.landings[i].rev && RevOf(ValueAfter(s, j + 1)) == s.landings[j].rev;
    assert RevOf(ValueAfter(s, 0)) < RevOf(ValueAfter(s, i + 1));
  }

  // An accepted grow republishes the key it read, one revision on.
  lemma GrowNeverChangesTheKey(start: Stored, trace: seq<Event>, i: nat)
    requires i < |Play(start, trace).landings| && Play(start, trace).landings[i].kind == Grow
    ensures ValueAfter(Play(start, trace), i).Live?
    ensures ValueAfter(Play(start, trace), i + 1).kfp == ValueAfter(Play(start, trace), i).kfp
    ensures ValueAfter(Play(start, trace), i + 1).rev == ValueAfter(Play(start, trace), i).rev + 1
  {
    EveryRunKeepsInv(start, trace);
    assert GrowFits(Play(start, trace), i);
  }

  // So a mint's key stands until the next mint: no grow undoes a mint that landed after its read.
  lemma {:induction false} MintStandsUntilTheNext(start: Stored, trace: seq<Event>, m: nat, n: nat)
    requires m <= n < |Play(start, trace).landings|
    requires forall i :: m < i <= n ==> Play(start, trace).landings[i].kind == Grow
    ensures Play(start, trace).landings[n].kfp == Play(start, trace).landings[m].kfp
    ensures Play(start, trace).landings[n].rev == Play(start, trace).landings[m].rev + (n - m)
    decreases n
  {
    if m < n {
      GrowNeverChangesTheKey(start, trace, n);
      MintStandsUntilTheNext(start, trace, m, n - 1);
    }
  }

  // ---- the calls ----

  datatype Fetched = Reply(stored: Stored) | TransportError

  // What opening a fan-out gives this device: the key, no wrap for us, or a header that lies.
  datatype Opened = TheKey | NoWrap | Tampered

  datatype Answer = Key(kfp: nat) | Nothing | Failed

  function AnswerOf(live: Stored, opens: Stored -> Opened): Answer
    requires live.Live?
  {
    match opens(live)
    case TheKey => Key(live.kfp)
    case NoWrap => Nothing
    case Tampered => Failed
  }

  function Recovered(read: Fetched, opens: Stored -> Opened): Answer {
    match read
    case TransportError => Failed
    case Reply(Live(r, k)) => AnswerOf(Live(r, k), opens)
    case Reply(_) => Nothing
  }

  function RawRev(read: Fetched): Rev {
    match read
    case TransportError => 0
    case Reply(s) => RevOf(s)
  }

  // The members read, when it gave any.
  predicate Establishes(first: Fetched, members: Option<nat>) {
    !(first.Reply? && first.stored.Live?) && members.Some? && members.value > 0
  }

  // Does the call's mint land over `slot`?
  predicate MintLands(first: Fetched, members: Option<nat>, raw: Fetched, slot: Stored) {
    Establishes(first, members) && Admits(slot, Bump(RawRev(raw)))
  }

  // The register after the call, and its answer.
  function AfterCall(first: Fetched, members: Option<nat>, raw: Fetched, slot: Stored, coined: nat): Stored {
    if MintLands(first, members, raw, slot) then Live(Bump(RawRev(raw)), coined) else slot
  }

  // What opening a read fan-out answers.
  predicate Opens(read: Stored, opens: Stored -> Opened, a: Answer) {
    match read
    case Live(_, kfp) =>
      (match opens(read)
       case TheKey => a == Key(kfp)
       case NoWrap => a == Nothing
       case Tampered => a == Failed)
    case _ => a == Nothing
  }

  // The call case by case.  A fan-out on the first read answers; without members it fails, with none of
  // them it answers nothing; otherwise it posts the coined key one revision past its own read, past
  // nothing if that failed, and answers that key if the post lands, else what the last read opens.
  ghost predicate CallIs(
    first: Fetched, members: Option<nat>, raw: Fetched, coined: nat, again: Fetched, opens: Stored -> Opened,
    before: Stored, after: Stored, a: Answer) {
    var seen := if raw.TransportError? then 0 else RevOf(raw.stored) as nat;
    var rev := if seen == LAST_REV then 0 else seen + 1;
    if first.Reply? && first.stored.Live? then after == before && Opens(first.stored, opens, a)
    else if members.None? then after == before && a == Failed
    else if members == Some(0) then after == before && a == Nothing
    else if rev > RevOf(before) then after == Live(rev, coined) && a == Key(coined)
    else after == before && if again.TransportError? then a == Failed else Opens(again.stored, opens, a)
  }

  // The register as the calls see it.
  class Register {
    var stored: Stored

    constructor (s: Stored)
      ensures stored == s
    {
      stored := s;
    }

    method PostFanout(rev: Rev, kfp: nat) returns (ok: bool)
      modifies this
      ensures ok <==> Admits(old(stored), rev)
      ensures stored == if ok then Live(rev, kfp) else old(stored)
    {
      ok := Admits(stored, rev);
      if ok {
        stored := Live(rev, kfp);
      }
    }

    // `raw` is what the mint's own read brought back, possibly stale.
    method MintFleetKey(raw: Fetched, coined: nat) returns (minted: Option<Rev>)
      modifies this
      ensures minted.Some? <==> Admits(old(stored), Bump(RawRev(raw)))
      ensures minted.Some? ==> minted.value == Bump(RawRev(raw)) && stored == Live(minted.value, coined)
      ensures minted.None? ==> stored == old(stored)
    {
      var current := match raw case TransportError => 0 case Reply(s) => RevOf(s);
      var ok := PostFanout(Bump(current), coined);
      minted := if ok then Some(Bump(current)) else None;
    }

    method GrowFleetWraps(read: Fetched, held: nat) returns (grown: Option<Rev>)
      modifies this
      ensures grown.Some? <==>
                && read.Reply? && read.stored.Live? && read.stored.kfp == held
                && Admits(old(stored), Bump(read.stored.rev))
      ensures grown.Some? ==> grown.value == read.stored.rev + 1 && stored == Live(grown.value, held)
      ensures grown.None? ==> stored == old(stored)
    {
      if !(read.Reply? && read.stored.Live?) || read.stored.kfp != held {
        return None;
      }
      var rev := Bump(read.stored.rev);
      var ok := PostFanout(rev, held);
      grown := if ok then Some(rev) else None;
    }

    method RecoverOrEstablish(
      first: Fetched, members: Option<nat>, raw: Fetched, coined: nat, again: Fetched, opens: Stored -> Opened)
      returns (a: Answer)
      modifies this
      ensures stored == AfterCall(first, members, raw, old(stored), coined)
      ensures first.Reply? && first.stored.Live? ==> stored == old(stored) && a == AnswerOf(first.stored, opens)
      ensures MintLands(first, members, raw, old(stored)) ==> a == Key(coined)
      ensures Establishes(first, members) && !MintLands(first, members, raw, old(stored)) ==>
                a == Recovered(again, opens)
      ensures !(first.Reply? && first.stored.Live?) && !Establishes(first, members) ==>
                a == if members.None? then Failed else Nothing
      ensures CallIs(first, members, raw, coined, again, opens, old(stored), stored, a)
    {
      match first
      case Reply(Live(r, k)) => a := AnswerOf(Live(r, k), opens);
      case _ =>
        if members.None? {
          return Failed;
        }
        if members.value == 0 {
          return Nothing;
        }
        var minted := MintFleetKey(raw, coined);
        a := if minted.Some? then Key(coined) else Recovered(again, opens);
    }
  }

  // The call on a running register: its first read saw the value after `a` landings, its mint's read
  // the value after `b`, and either may have failed.  It overwrites a live blob exactly when the first
  // read failed or saw no live blob, and nothing landed between the second read and the post; or, the
  // second read having failed, when the live blob's revision is 0.
  lemma OverwritesALiveBlobIff(s: System, first: Fetched, a: nat, members: Option<nat>, raw: Fetched, b: nat)
    requires RegisterInv(s) && a <= b <= |s.landings|
    requires first.TransportError? || first.stored == ValueAfter(s, a)
    requires raw.TransportError? || raw.stored == ValueAfter(s, b)
    ensures var slot := Current(s);
            MintLands(first, members, raw, slot) && slot.Live?
            <==> slot.Live? && members.Some? && members.value > 0
                 && (first.TransportError? || !ValueAfter(s, a).Live?)
                 && if raw.Reply? then b == |s.landings| && slot.rev < LAST_REV else slot.rev == 0
  {
    assert b < |s.landings| ==> RevOf(ValueAfter(s, b)) < RevOf(Current(s));
  }

  // When its fetches fail only on parsing and nobody publishes between its two reads, it mints only
  // over an absent or unparseable blob.
  lemma MintsOnlyOverNothingReadable(s: System, members: Option<nat>, b: nat)
    requires RegisterInv(s) && b <= |s.landings|
    ensures var read := Reply(ValueAfter(s, b));
            MintLands(read, members, read, Current(s)) ==> !Current(s).Live?
  {
    OverwritesALiveBlobIff(s, Reply(ValueAfter(s, b)), b, members, Reply(ValueAfter(s, b)), b);
  }

  // A transport error on the first read is taken for absence: the call mints over a live key.
  lemma TransportErrorMintsOverALiveKey(rev: Rev, kfp: nat, coined: nat)
    requires rev < LAST_REV
    ensures var slot := Live(rev, kfp);
            AfterCall(TransportError, Some(1), Reply(slot), slot, coined) == Live(rev + 1, coined)
  {
  }

  // Two founders race: the second reads an absent register, the first establishes, the second's mint
  // reads that new blob and steps over it.  Both calls answer with a key, and they differ.
  lemma TheRaceCanMintTwice(k1: nat, k2: nat)
    requires k1 != k2
    ensures var trace := [ReadForMint(1, Some(0), k1), Post(1), ReadForMint(2, Some(1), k2), Post(2)];
            var s := Play(Absent, trace);
            && s.landings == [Landing(1, Mint, 1, k1), Landing(2, Mint, 2, k2)]
            && MintLands(Reply(ValueAfter(s, 0)), Some(2), Reply(ValueAfter(s, 1)), ValueAfter(s, 1))
  {
    var trace := [ReadForMint(1, Some(0), k1), Post(1), ReadForMint(2, Some(1), k2), Post(2)];
    assert trace[..3] == [ReadForMint(1, Some(0), k1), Post(1), ReadForMint(2, Some(1), k2)];
    assert trace[..3][..2] == [ReadForMint(1, Some(0), k1), Post(1)];
    assert trace[..3][..2][..1] == [ReadForMint(1, Some(0), k1)];
    var s0 := System(Absent, [], map[]);
    var s1 := Next(s0, trace[0]);
    assert Play(Absent, trace[..3][..2][..1]) == s1;
    var s2 := Next(s1, trace[1]);
    assert Play(Absent, trace[..3][..2]) == s2 && s2.landings == [Landing(1, Mint, 1, k1)];
    var s3 := Next(s2, trace[2]);
    assert Play(Absent, trace[..3]) == s3;
    assert Play(Absent, trace) == Next(s3, trace[3]);
  }
}
