/**
 The registry reconciler: converge the stored pointer run of an identity onto the folded member set
 by pop-and-swap, writing only the slots that change.
 */
module Registry {
  import opened Wrappers
  import opened Collections

  type Device = nat

  // What one plan writes: a pointer at an index, or the attested count.
  datatype Write = Pointer(index: nat, device: Device) | Count(count: nat)

  function Elements(s: seq<Device>): set<Device> {
    set d | d in s
  }

  // ---- the target run ----

  // The run pop-and-swap leaves of what is stored.
  ghost predicate Reconciled(current: seq<Device>, fold: seq<Device>, kept: seq<Device>) {
    && |kept| <= |current|
    && (forall i :: 0 <= i < |kept| ==> kept[i] in fold && kept[i] in current)
    && (forall i :: 0 <= i < |kept| && current[i] in fold ==> kept[i] == current[i])
    && (forall d :: d in fold ==> multiset(kept)[d] == multiset(current)[d])
  }

  lemma SwapPopCounts(list: seq<Device>, i: nat)
    requires i < |list|
    ensures multiset(list[i := list[|list| - 1]][..|list| - 1]) == multiset(list) - multiset{list[i]}
  {
    var last := list[|list| - 1];
    var swapped := list[i := last];
    var cut := swapped[..|list| - 1];
    assert swapped == cut + [last];
    forall d ensures multiset(cut)[d] == (multiset(list) - multiset{list[i]})[d] {
      assert multiset(swapped)[d] == multiset(cut)[d] + multiset{last}[d];
    }
  }

  // Drop what the fold no longer names: the hole takes the tail, which is checked in its turn.
  function PopSwap(list: seq<Device>, fold: seq<Device>, i: nat): seq<Device>
    decreases |list| - i
  {
    if i >= |list| then list
    else if list[i] in fold then PopSwap(list, fold, i + 1)
    else PopSwap(list[i := list[|list| - 1]][..|list| - 1], fold, i)
  }

  // What the walk keeps: settled up to i, untouched past i, members neither gained nor lost.
  ghost predicate Underway(current: seq<Device>, fold: seq<Device>, list: seq<Device>, i: nat) {
    && i <= |list| <= |current|
    && (forall j :: 0 <= j < i ==> list[j] in fold)
    && (forall j :: 0 <= j < |list| ==> list[j] in current)
    && (forall j :: 0 <= j < |list| && j != i ==> current[j] in fold || j > i ==> list[j] == current[j])
    && (i < |list| ==> list[i] == current[i] || current[i] !in fold)
    && (forall d :: d in fold ==> multiset(list)[d] == multiset(current)[d])
  }

  lemma PopStaysUnderway(current: seq<Device>, fold: seq<Device>, list: seq<Device>, i: nat)
    requires Underway(current, fold, list, i) && i < |list| && list[i] !in fold
    ensures Underway(current, fold, list[i := list[|list| - 1]][..|list| - 1], i)
  {
    SwapPopCounts(list, i);
    var cut := list[i := list[|list| - 1]][..|list| - 1];
    assert forall j :: 0 <= j < |cut| && j != i ==> cut[j] == list[j];
    assert i < |cut| ==> cut[i] == list[|list| - 1];
    assert current[i] !in fold;
    forall d | d in fold ensures multiset(cut)[d] == multiset(current)[d] {
      assert multiset(cut)[d] == (multiset(list) - multiset{list[i]})[d];
    }
  }

  lemma {:induction false} PopSwapReconciles(current: seq<Device>, fold: seq<Device>, list: seq<Device>, i: nat)
    requires Underway(current, fold, list, i)
    ensures Reconciled(current, fold, PopSwap(list, fold, i))
    decreases |list| - i
  {
    if i < |list| {
      if list[i] in fold {
        PopSwapReconciles(current, fold, list, i + 1);
      } else {
        PopStaysUnderway(current, fold, list, i);
        PopSwapReconciles(current, fold, list[i := list[|list| - 1]][..|list| - 1], i);
      }
    }
  }

  method PopAndSwap(current: seq<Device>, fold: seq<Device>) returns (list: seq<Device>)
    ensures list == PopSwap(current, fold, 0)
    ensures Reconciled(current, fold, list)
  {
    list := current;
    var i := 0;
    while i < |list|
      invariant i <= |list| && PopSwap(list, fold, i) == PopSwap(current, fold, 0)
      decreases |list| - i
    {
      if list[i] in fold {
        i := i + 1;
      } else {
        list := list[i := list[|list| - 1]][..|list| - 1];
      }
    }
    PopSwapReconciles(current, fold, current, 0);
  }

  // Then append the devices the run does not name yet, in fold order.
  function Appended(list: seq<Device>, fold: seq<Device>): (r: seq<Device>)
    ensures list <= r
  {
    if fold == [] then list
    else
      var before := Appended(list, fold[..|fold| - 1]);
      var d := fold[|fold| - 1];
      if d in before then before else before + [d]
  }

  method AppendMissing(kept: seq<Device>, fold: seq<Device>) returns (list: seq<Device>)
    ensures list == Appended(kept, fold)
  {
    list := kept;
    for i := 0 to |fold|
      invariant list == Appended(kept, fold[..i])
    {
      assert fold[..i + 1][..i] == fold[..i];
      if fold[i] !in list {
        list := list + [fold[i]];
      }
    }
    assert fold[..|fold|] == fold;
  }

  lemma {:induction false} AppendedElements(kept: seq<Device>, fold: seq<Device>)
    ensures forall d :: d in Appended(kept, fold) <==> d in kept || d in fold
    ensures forall i :: |kept| <= i < |Appended(kept, fold)| ==> Appended(kept, fold)[i] !in kept
    ensures Distinct(kept) ==> Distinct(Appended(kept, fold))
  {
    if fold != [] {
      AppendedElements(kept, fold[..|fold| - 1]);
      assert fold == fold[..|fold| - 1] + [fold[|fold| - 1]];
    }
  }

  lemma {:induction false} NothingMissing(kept: seq<Device>, fold: seq<Device>)
    requires forall d :: d in fold ==> d in kept
    ensures Appended(kept, fold) == kept
  {
    if fold != [] {
      NothingMissing(kept, fold[..|fold| - 1]);
    }
  }

  // ---- the plan ----

  // Pointer writes for the slots of `list` from i on that are not already right.
  function PointerWrites(current: seq<Device>, list: seq<Device>, i: nat): (w: seq<Write>)
    requires i <= |list|
    ensures forall x :: x in w ==> x.Pointer? && i <= x.index < |list| && list[x.index] == x.device
    decreases |list| - i
  {
    if i == |list| then []
    else if i < |current| && current[i] == list[i] then PointerWrites(current, list, i + 1)
    else [Pointer(i, list[i])] + PointerWrites(current, list, i + 1)
  }

  function Writes(current: seq<Device>, stored: Option<nat>, list: seq<Device>): (w: seq<Write>) {
    var out := PointerWrites(current, list, 0);
    if out != [] || stored != Some(|list|) then out + [Count(|list|)] else out
  }

  // The run a plan leads to.
  function Target(current: seq<Device>, fold: seq<Device>): seq<Device> {
    Appended(PopSwap(current, fold, 0), fold)
  }

  method Plan(current: seq<Device>, stored: Option<nat>, fold: seq<Device>) returns (out: seq<Write>)
    ensures out == Writes(current, stored, Target(current, fold))
  {
    var list := PopAndSwap(current, fold);
    list := AppendMissing(list, fold);
    out := [];
    var idx := 0;
    while idx < |list|
      invariant idx <= |list| && out + PointerWrites(current, list, idx) == PointerWrites(current, list, 0)
    {
      if !(idx < |current| && current[idx] == list[idx]) {
        out := out + [Pointer(idx, list[idx])];
      }
      idx := idx + 1;
    }
    if out != [] || stored != Some(|list|) {
      out := out + [Count(|list|)];
    }
  }

  // ---- applying a plan ----

  // What a reader finds in the store: pointers by index, and the attested extent.
  datatype Store = Store(pointers: map<nat, Device>, count: Option<nat>)

  function ApplyOne(s: Store, w: Write): Store {
    match w
    case Pointer(i, d) => s.(pointers := s.pointers[i := d])
    case Count(n) => s.(count := Some(n))
  }

  function Apply(s: Store, ws: seq<Write>): Store
    decreases |ws|
  {
    if ws == [] then s else Apply(ApplyOne(s, ws[0]), ws[1..])
  }

  ghost predicate Stores(s: Store, run: seq<Device>) {
    forall i :: 0 <= i < |run| ==> i in s.pointers && s.pointers[i] == run[i]
  }

  lemma {:induction false} PointerWritesLand(
    s: Store, current: seq<Device>, list: seq<Device>, i: nat, tail: seq<Write>)
    requires i <= |list| && Stores(s, list[..i])
    requires forall j :: i <= j < |current| ==> j in s.pointers && s.pointers[j] == current[j]
    ensures exists t: Store :: Stores(t, list) && t.count == s.count
                               && Apply(s, PointerWrites(current, list, i) + tail) == Apply(t, tail)
    decreases |list| - i
  {
    var ws := PointerWrites(current, list, i);
    if i == |list| {
      assert list[..i] == list && ws + tail == tail;
    } else if i < |current| && current[i] == list[i] {
      PointerWritesLand(s, current, list, i + 1, tail);
    } else {
      var s' := ApplyOne(s, ws[0]);
      assert (ws + tail)[1..] == PointerWrites(current, list, i + 1) + tail;
      PointerWritesLand(s', current, list, i + 1, tail);
    }
  }

  // Applied to the run it was planned from, a plan stores exactly the target and its length.
  lemma PlanConverges(s: Store, current: seq<Device>, list: seq<Device>)
    requires Stores(s, current)
    ensures var t := Apply(s, Writes(current, s.count, list));
            Stores(t, list) && t.count == Some(|list|)
  {
    var out := PointerWrites(current, list, 0);
    if out != [] || s.count != Some(|list|) {
      PointerWritesLand(s, current, list, 0, [Count(|list|)]);
      var t :| Stores(t, list) && t.count == s.count && Apply(s, out + [Count(|list|)]) == Apply(t, [Count(|list|)]);
      assert Apply(t, [Count(|list|)]) == ApplyOne(t, Count(|list|));
    } else {
      PointerWritesLand(s, current, list, 0, []);
      assert out + [] == out;
    }
  }

  lemma {:induction false} NoPointerWritesOntoSelf(list: seq<Device>, i: nat)
    requires i <= |list|
    ensures PointerWrites(list, list, i) == []
    decreases |list| - i
  {
    if i < |list| {
      NoPointerWritesOntoSelf(list, i + 1);
    }
  }

  // Reconciling a run that already is the fold keeps it, so the next plan is empty.
  lemma NextPlanIsEmpty(list: seq<Device>, fold: seq<Device>, kept: seq<Device>)
    requires Reconciled(list, fold, kept) && forall d :: d in list <==> d in fold
    ensures kept == list && Writes(list, Some(|list|), Appended(kept, fold)) == []
  {
    assert |kept| == |list| by {
      forall d ensures multiset(kept)[d] == multiset(list)[d] {
        if d !in fold {
          assert d !in kept && d !in list;
        }
      }
      assert multiset(kept) == multiset(list);
      assert |multiset(kept)| == |kept| && |multiset(list)| == |list|;
    }
    assert kept == list;
    NothingMissing(kept, fold);
    NoPointerWritesOntoSelf(list, 0);
  }

  // The target names exactly the fold, keeps every surviving pointer below the kept length where
  // it is, and is duplicate-free when what is stored is.
  lemma TargetIsTheFold(current: seq<Device>, fold: seq<Device>, kept: seq<Device>)
    requires Reconciled(current, fold, kept)
    ensures var list := Appended(kept, fold);
            && (forall d :: d in list <==> d in fold)
            && (forall i :: 0 <= i < |kept| && current[i] in fold ==> list[i] == current[i])
  {
    AppendedElements(kept, fold);
  }

  // One convergence is enough.  Applied to the store it was planned from, a plan leaves the target and
  // its count; the target names exactly the fold, once each when view and fold are duplicate-free; and
  // planned again over the result nothing is left to write.
  lemma OnePlanConverges(s: Store, current: seq<Device>, fold: seq<Device>)
    requires Stores(s, current)
    ensures var list := Target(current, fold);
            var t := Apply(s, Writes(current, s.count, list));
            && Stores(t, list) && t.count == Some(|list|)
            && (forall d :: d in list <==> d in fold)
            && (Distinct(current) && Distinct(fold) ==> Distinct(list))
            && Writes(list, t.count, Target(list, fold)) == []
  {
    var kept, list := PopSwap(current, fold, 0), Target(current, fold);
    PlanConverges(s, current, list);
    PopSwapReconciles(current, fold, current, 0);
    TargetIsTheFold(current, fold, kept);
    HealsUnlessMemberDuplicated(current, fold, kept);
    DistinctMeansOnce(current);
    PopSwapReconciles(list, fold, list, 0);
    NextPlanIsEmpty(list, fold, PopSwap(list, fold, 0));
  }

  // A duplicate is healed exactly when it is not a member: the target is duplicate-free if and
  // only if no device of the fold is stored twice.
  lemma HealsUnlessMemberDuplicated(current: seq<Device>, fold: seq<Device>, kept: seq<Device>)
    requires Reconciled(current, fold, kept)
    ensures Distinct(Appended(kept, fold)) <==> forall d :: d in fold ==> multiset(current)[d] <= 1
  {
    var list := Appended(kept, fold);
    DistinctMeansOnce(kept);
    DistinctMeansOnce(list);
    AppendedElements(kept, fold);
    if forall d :: d in fold ==> multiset(current)[d] <= 1 {
      forall d | d in kept ensures multiset(kept)[d] <= 1 {
        assert d in fold;
      }
    }
    if Distinct(list) {
      assert kept == list[..|kept|];
      forall d | d in fold ensures multiset(current)[d] <= 1 {
        assert multiset(kept)[d] <= 1;
      }
    }
  }

  lemma {:induction false} DistinctMeansOnce(s: seq<Device>)
    ensures Distinct(s) <==> forall d :: d in s ==> multiset(s)[d] <= 1
  {
    if s != [] {
      var front, last := s[..|s| - 1], s[|s| - 1];
      assert s == front + [last];
      DistinctMeansOnce(front);
      assert multiset(s) == multiset(front) + multiset{last};
      if Distinct(s) {
        assert Distinct(front) && last !in front;
      }
      if forall d :: d in s ==> multiset(s)[d] <= 1 {
        forall d | d in front ensures multiset(front)[d] <= 1 {
          assert d in s;
        }
        assert last in s && multiset(s)[last] <= 1;
        assert last !in front;
      }
    }
  }

  // ---- how many writes ----

  // The slots of a run that differ from what is stored; each costs one pointer write.
  function Cost(current: seq<Device>, list: seq<Device>): set<nat> {
    set i | 0 <= i < |list| && !(i < |current| && current[i] == list[i])
  }

  lemma {:induction false} WritesCount(current: seq<Device>, list: seq<Device>, i: nat)
    requires i <= |list|
    ensures |PointerWrites(current, list, i)| == |set j | j in Cost(current, list) && j >= i|
    decreases |list| - i
  {
    var now := set j | j in Cost(current, list) && j >= i;
    if i == |list| {
      assert now == {};
    } else {
      WritesCount(current, list, i + 1);
      var rest := set j | j in Cost(current, list) && j >= i + 1;
      if i < |current| && current[i] == list[i] {
        assert now == rest;
      } else {
        assert now == rest + {i};
      }
    }
  }

  lemma PlanCosts(current: seq<Device>, list: seq<Device>)
    ensures |PointerWrites(current, list, 0)| == |Cost(current, list)|
  {
    WritesCount(current, list, 0);
    assert (set j | j in Cost(current, list) && j >= 0) == Cost(current, list);
  }

  ghost predicate Enumerates(run: seq<Device>, fold: seq<Device>) {
    Distinct(run) && forall d :: d in run <==> d in fold
  }

  lemma EnumerationsAgreeInLength(a: seq<Device>, b: seq<Device>, fold: seq<Device>)
    requires Enumerates(a, fold) && Enumerates(b, fold)
    ensures |a| == |b|
  {
    DistinctSize(a);
    DistinctSize(b);
    assert Elements(a) == Elements(b);
  }

  lemma {:induction false} DistinctSize(s: seq<Device>)
    requires Distinct(s)
    ensures |s| == |Elements(s)|
  {
    if s != [] {
      var front, last := s[..|s| - 1], s[|s| - 1];
      assert s == front + [last];
      DistinctSize(front);
      assert Elements(s) == Elements(front) + {last};
    }
  }

  lemma KeptIsDistinct(current: seq<Device>, fold: seq<Device>, kept: seq<Device>)
    requires Distinct(current) && Reconciled(current, fold, kept)
    ensures Distinct(kept)
  {
    DistinctMeansOnce(current);
    DistinctMeansOnce(kept);
    forall d | d in kept ensures multiset(kept)[d] <= 1 {
      assert d in fold && d in current;
    }
  }

  // ---- when a plan is minimal ----

  function StoreOf(current: seq<Device>, stored: Option<nat>): Store {
    Store(map i | 0 <= i < |current| :: current[i], stored)
  }

  // These writes turn what is stored into some run of the fold, with its count.
  ghost predicate Reaches(
    current: seq<Device>, stored: Option<nat>, fold: seq<Device>, ws: seq<Write>, run: seq<Device>) {
    var t := Apply(StoreOf(current, stored), ws);
    Enumerates(run, fold) && Stores(t, run) && t.count == Some(|run|)
  }

  // No list of writes that reaches the fold is shorter than the plan.
  ghost predicate Minimal(current: seq<Device>, stored: Option<nat>, fold: seq<Device>) {
    forall ws, run :: Reaches(current, stored, fold, ws, run)
      ==> |Writes(current, stored, Target(current, fold))| <= |ws|
  }

  function Survivors(current: seq<Device>, fold: seq<Device>): set<Device> {
    set d | d in current && d in fold
  }

  // A member's pointer past the survivors' count but inside the new length: the plan moves it away
  // and writes another member over it.
  ghost predicate Displaced(current: seq<Device>, fold: seq<Device>, i: nat) {
    |Survivors(current, fold)| <= i < |Elements(fold)| && MemberAt(current, fold, i)
  }

  // Every slot of the new length holds a member already.
  ghost predicate InPlace(current: seq<Device>, fold: seq<Device>) {
    forall i :: 0 <= i < |Elements(fold)| ==> MemberAt(current, fold, i)
  }

  predicate MemberAt(current: seq<Device>, fold: seq<Device>, i: nat) {
    i < |current| && current[i] in fold
  }

  // The plan's shape, for a duplicate-free view: the survivors, then the missing members.
  lemma TargetShape(current: seq<Device>, fold: seq<Device>)
    requires Distinct(current)
    ensures var kept := PopSwap(current, fold, 0);
            && Reconciled(current, fold, kept) && Distinct(kept) && |kept| == |Survivors(current, fold)|
            && (forall d :: d in kept <==> d in current && d in fold)
    ensures Enumerates(Target(current, fold), fold) && |Target(current, fold)| == |Elements(fold)|
  {
    var kept, list := PopSwap(current, fold, 0), Target(current, fold);
    PopSwapReconciles(current, fold, current, 0);
    KeptIsDistinct(current, fold, kept);
    forall d | d in fold ensures d in kept <==> d in current {
      assert multiset(kept)[d] == multiset(current)[d];
    }
    DistinctSize(kept);
    assert Elements(kept) == Survivors(current, fold);
    AppendedElements(kept, fold);
    DistinctSize(list);
    assert Elements(list) == Elements(fold);
  }

  // A slot costs a write exactly when it lies past the survivors or holds a device that left.
  lemma CostsWrite(current: seq<Device>, fold: seq<Device>, i: nat)
    requires Distinct(current)
    ensures i in Cost(current, Target(current, fold)) <==>
            i < |Elements(fold)| && (i < |Survivors(current, fold)| ==> !MemberAt(current, fold, i))
  {
    TargetShape(current, fold);
    var kept, list := PopSwap(current, fold, 0), Target(current, fold);
    AppendedElements(kept, fold);
    if i < |list| {
      var here := list[i];
      assert i < |kept| ==> here == kept[i];
      assert i >= |kept| ==> here !in kept && here in fold;
    }
  }

  function Indices(ws: seq<Write>): set<nat> {
    set w | w in ws && w.Pointer? :: w.index
  }

  // Writes touch no index and no count they do not name, and name at most one thing each.
  lemma {:induction false} WritesTouchOnly(s: Store, ws: seq<Write>)
    ensures var t := Apply(s, ws);
            && (forall i :: i !in Indices(ws) ==> (i in t.pointers <==> i in s.pointers))
            && (forall i :: i !in Indices(ws) && i in s.pointers ==> t.pointers[i] == s.pointers[i])
            && (t.count != s.count ==> |Indices(ws)| < |ws|)
            && |Indices(ws)| <= |ws|
    decreases |ws|
  {
    if ws != [] {
      var w, rest := ws[0], ws[1..];
      WritesTouchOnly(ApplyOne(s, w), rest);
      assert forall x :: x in ws <==> x == w || x in rest;
      if w.Pointer? {
        assert Indices(ws) == Indices(rest) + {w.index};
      } else {
        assert Indices(ws) == Indices(rest);
      }
    }
  }

  // Every slot that differs must be written, and so must a count that differs.
  lemma ReachingCosts(current: seq<Device>, stored: Option<nat>, fold: seq<Device>, ws: seq<Write>, run: seq<Device>)
    requires Reaches(current, stored, fold, ws, run)
    ensures |ws| >= |Cost(current, run)| + if stored == Some(|run|) then 0 else 1
  {
    var s := StoreOf(current, stored);
    WritesTouchOnly(s, ws);
    forall i | i in Cost(current, run) ensures i in Indices(ws) {
      assert Apply(s, ws).pointers[i] == run[i];
    }
    SubsetSmaller(Cost(current, run), Indices(ws));
  }

  lemma PlanLength(current: seq<Device>, stored: Option<nat>, list: seq<Device>)
    ensures |Writes(current, stored, list)| ==
            |Cost(current, list)| + if Cost(current, list) == {} && stored == Some(|list|) then 0 else 1
  {
    PlanCosts(current, list);
    var out := PointerWrites(current, list, 0);
    if Cost(current, list) == {} {
      assert |out| == 0;
    } else {
      var i :| i in Cost(current, list);
      SubsetSmaller({i}, Cost(current, list));
      assert |out| >= 1;
    }
  }

  // With no displaced pointer, and the count to be written unless nothing is, no list is shorter.
  lemma MinimalWhen(current: seq<Device>, stored: Option<nat>, fold: seq<Device>)
    requires Distinct(current) && (forall i :: !Displaced(current, fold, i))
    requires stored == Some(|Elements(fold)|) ==> InPlace(current, fold)
    ensures Minimal(current, stored, fold)
  {
    var list := Target(current, fold);
    TargetShape(current, fold);
    PlanLength(current, stored, list);
    forall ws, run | Reaches(current, stored, fold, ws, run) ensures |Writes(current, stored, list)| <= |ws| {
      ReachingCosts(current, stored, fold, ws, run);
      EnumerationsAgreeInLength(list, run, fold);
      forall i | i in Cost(current, list) ensures i in Cost(current, run) {
        CostsWrite(current, fold, i);
        assert !Displaced(current, fold, i);
        assert run[i] in fold;
      }
      SubsetSmaller(Cost(current, list), Cost(current, run));
      if stored == Some(|list|) {
        forall i ensures i !in Cost(current, list) {
          CostsWrite(current, fold, i);
          assert !Displaced(current, fold, i);
        }
        assert Cost(current, list) == {};
      }
    }
  }

  // Leave the displaced pointer where it is, and put its plan-mate in the slot it was moved to.
  function Swapped(list: seq<Device>, p: nat, i: nat): seq<Device>
    requires p < |list| && i < |list|
  {
    list[p := list[i]][i := list[p]]
  }

  lemma SwapEnumerates(list: seq<Device>, fold: seq<Device>, p: nat, i: nat)
    requires Enumerates(list, fold) && p < |list| && i < |list|
    ensures Enumerates(Swapped(list, p, i), fold) && |Swapped(list, p, i)| == |list|
  {
    var other := Swapped(list, p, i);
    forall d ensures d in other <==> d in list {
      if d in list {
        var j :| 0 <= j < |list| && list[j] == d;
        assert other[if j == p then i else if j == i then p else j] == d;
      }
    }
  }

  // The planned slot p of a displaced member d is written for it; leaving d at i saves that slot's write.
  lemma SwapSaves(current: seq<Device>, list: seq<Device>, p: nat, i: nat)
    requires Distinct(current) && p < i < |list| && i < |current| && list[p] == current[i] && list[i] != list[p]
    ensures i in Cost(current, list) && Cost(current, Swapped(list, p, i)) <= Cost(current, list) - {i}
  {
    var other := Swapped(list, p, i);
    assert current[p] != current[i];
    assert p in Cost(current, list) && i in Cost(current, list);
    forall j | j in Cost(current, other) ensures j in Cost(current, list) && j != i {
      assert j != p && j != i ==> other[j] == list[j];
    }
  }

  lemma DisplacedAt(current: seq<Device>, fold: seq<Device>, i: nat) returns (p: nat)
    requires Distinct(current) && Displaced(current, fold, i)
    ensures var list := Target(current, fold);
            p < i < |list| && i < |current| && list[p] == current[i] && list[i] != list[p]
  {
    TargetShape(current, fold);
    var kept := PopSwap(current, fold, 0);
    AppendedElements(kept, fold);
    assert current[i] in kept;
    p :| 0 <= p < |kept| && kept[p] == current[i];
    assert Target(current, fold)[i] !in kept;
  }

  lemma CheaperRunWins(current: seq<Device>, stored: Option<nat>, fold: seq<Device>, other: seq<Device>)
    requires Enumerates(other, fold) && |other| == |Target(current, fold)|
    requires |Cost(current, other)| < |Cost(current, Target(current, fold))|
    ensures !Minimal(current, stored, fold)
  {
    PlanLength(current, stored, Target(current, fold));
    PlanLength(current, stored, other);
    PlanConverges(StoreOf(current, stored), current, other);
    assert Reaches(current, stored, fold, Writes(current, stored, other), other);
  }

  lemma DisplacedCostsMore(current: seq<Device>, stored: Option<nat>, fold: seq<Device>, i: nat)
    requires Distinct(current) && Displaced(current, fold, i)
    ensures !Minimal(current, stored, fold)
  {
    TargetShape(current, fold);
    var list := Target(current, fold);
    var p := DisplacedAt(current, fold, i);
    SwapEnumerates(list, fold, p, i);
    SwapSaves(current, list, p, i);
    SubsetSmaller(Cost(current, Swapped(list, p, i)), Cost(current, list) - {i});
    CheaperRunWins(current, stored, fold, Swapped(list, p, i));
  }

  lemma AgreeingCountCostsMore(current: seq<Device>, stored: Option<nat>, fold: seq<Device>, i: nat)
    requires Distinct(current) && (forall i :: !Displaced(current, fold, i))
    requires stored == Some(|Elements(fold)|) && i < |Elements(fold)| && !MemberAt(current, fold, i)
    ensures !Minimal(current, stored, fold)
  {
    TargetShape(current, fold);
    var list := Target(current, fold);
    CostsWrite(current, fold, i);
    PlanLength(current, stored, list);
    PlanCosts(current, list);
    var s, out := StoreOf(current, stored), PointerWrites(current, list, 0);
    PointerWritesLand(s, current, list, 0, []);
    assert out + [] == out;
    assert Reaches(current, stored, fold, out, list);
  }

  // A plan is the shortest list of writes that reaches the fold exactly when no member's pointer is
  // displaced and, if the stored count is right already, every slot of the new length is too: with a
  // right count any pointer write drags a needless count record after it.
  lemma PlanIsMinimalIff(current: seq<Device>, stored: Option<nat>, fold: seq<Device>)
    requires Distinct(current)
    ensures Minimal(current, stored, fold) <==>
            && (forall i :: !Displaced(current, fold, i))
            && (stored == Some(|Elements(fold)|) ==> InPlace(current, fold))
  {
    if i :| Displaced(current, fold, i) {
      DisplacedCostsMore(current, stored, fold, i);
    } else if stored == Some(|Elements(fold)|) && !InPlace(current, fold) {
      var i :| 0 <= i < |Elements(fold)| && !MemberAt(current, fold, i);
      AgreeingCountCostsMore(current, stored, fold, i);
    } else {
      MinimalWhen(current, stored, fold);
    }
  }

  // So pure adds and pure removals are minimal whenever the stored count is the stored run's length.
  lemma PureChangesAreMinimal(current: seq<Device>, fold: seq<Device>)
    requires Distinct(current)
    requires (forall d :: d in current ==> d in fold) || (forall d :: d in fold ==> d in current)
    ensures Minimal(current, Some(|current|), fold)
  {
    DistinctSize(current);
    if forall d :: d in current ==> d in fold {
      assert Survivors(current, fold) == Elements(current);
    } else {
      assert Survivors(current, fold) == Elements(fold);
    }
    forall i | 0 <= i < |current| && |current| == |Elements(fold)| ensures current[i] in fold {
      if Elements(fold) <= Elements(current) {
        SameSizeSubset(Elements(fold), Elements(current));
      }
      assert current[i] in Elements(current);
    }
    PlanIsMinimalIff(current, Some(|current|), fold);
  }

  // Device 2 stays, 1 leaves and 3 joins: the plan rewrites both slots and the count, where one
  // pointer would do.
  lemma MixedPlanIsNotMinimal()
    ensures !Minimal([1, 2], Some(2), [2, 3])
    ensures forall stored :: !Minimal([1, 2], stored, [2, 3])
  {
    var current, fold := [1, 2], [2, 3];
    assert Survivors(current, fold) == {2} by { assert current[1] in fold; }
    assert Elements(fold) == {2, 3} by { assert fold[0] == 2 && fold[1] == 3; }
    assert Displaced(current, fold, 1);
    forall stored ensures !Minimal(current, stored, fold) {
      DisplacedCostsMore(current, stored, fold, 1);
    }
  }

  // A mixed change that is minimal, and a pure add that is not because the count was right already.
  lemma MixedMayBeMinimal()
    ensures Minimal([1], None, [2])
    ensures !Minimal([1], Some(2), [1, 2])
  {
    assert Elements([2]) == {2} && Survivors([1], [2]) == {};
    PlanIsMinimalIff([1], None, [2]);
    var fold := [1, 2];
    assert Elements(fold) == {1, 2} by { assert fold[0] == 1 && fold[1] == 2; }
    assert Survivors([1], fold) == {1} by { assert fold[0] == 1; }
    PlanIsMinimalIff([1], Some(2), fold);
    assert !MemberAt([1], fold, 1);
  }

  // A member stored twice, with the count agreeing, plans nothing: the duplicate stays.
  lemma DuplicateNeverHealed() returns (current: seq<Device>, fold: seq<Device>, kept: seq<Device>)
    ensures !Distinct(current) && Reconciled(current, fold, kept) && Distinct(fold)
    ensures Writes(current, Some(|current|), Appended(kept, fold)) == []
  {
    current, fold := [7, 7], [7];
    kept := current;
    assert current[0] == current[1] && 7 in current;
    NextPlanIsEmpty(current, fold, kept);
  }
}
