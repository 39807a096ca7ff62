/** The stake-weighted choice of a block's proposer. */
module Proposer {
  import opened Canonical
  import opened Collections
  import opened ValidatorBonds
  import Audit

  /** What the schedule draws on: a number per previous block, height and snapshot. */
  type Draw = (Bytes, int, Snapshot) -> nat

  function Ids(bonds: seq<Bond>): (r: seq<Bytes>)
    ensures |r| == |bonds| && forall i | 0 <= i < |r| :: r[i] == bonds[i].validatorId
  {
    seq(|bonds|, i requires 0 <= i < |bonds| => bonds[i].validatorId)
  }

  predicate SnapshotOk(s: Snapshot) {
    && Audit.IsHex64(s.root) && 0 <= s.height <= MAX_SAFE_INTEGER
    && Distinct(Ids(s.validators)) && [] !in Ids(s.validators)
    && forall b | b in s.validators :: b.bondedStake >= 0
  }

  /** The validators with stake, in canonical order. */
  ghost predicate IsRoll(bonds: seq<Bond>, roll: seq<Bond>) {
    && SortedBy(ById, roll) && Distinct(Ids(roll))
    && forall b :: b in roll <==> b in bonds && b.bondedStake > 0
  }

  function Stake(roll: seq<Bond>): int {
    if roll == [] then 0 else Stake(roll[..|roll| - 1]) + roll[|roll| - 1].bondedStake
  }

  /** None stands for a thrown error. */
  method SortedPositiveValidators(s: Snapshot) returns (r: Option<seq<Bond>>)
    ensures r.Some? <==> SnapshotOk(s)
    ensures r.Some? ==> IsRoll(s.validators, r.value)
  {
    if !Audit.IsHex64(s.root) || s.height < 0 || s.height > MAX_SAFE_INTEGER {
      return None;
    }
    var seen: set<Bytes> := {};
    var positive: seq<Bond> := [];
    var i := 0;
    while i < |s.validators|
      invariant i <= |s.validators| && seen == Elements(Ids(s.validators)[..i])
      invariant Distinct(Ids(s.validators)[..i]) && [] !in Ids(s.validators)[..i]
      invariant forall b | b in s.validators[..i] :: b.bondedStake >= 0
      invariant forall b :: b in positive <==> b in s.validators[..i] && b.bondedStake > 0
      invariant Distinct(positive)
    {
      var b := s.validators[i];
      assert Ids(s.validators)[..i + 1] == Ids(s.validators)[..i] + [b.validatorId];
      assert s.validators[..i + 1] == s.validators[..i] + [b];
      if b.validatorId == [] || b.validatorId in seen {
        assert b.validatorId in seen ==> exists k :: 0 <= k < i && Ids(s.validators)[k] == b.validatorId;
        return None;
      }
      if b.bondedStake < 0 {
        return None;
      }
      NotYet(s.validators, i);
      seen := seen + {b.validatorId};
      if b.bondedStake > 0 {
        positive := positive + [b];
      }
      i := i + 1;
    }
    assert Ids(s.validators)[..i] == Ids(s.validators) && s.validators[..i] == s.validators;
    RollSorted(s.validators, positive);
    r := Some(Sort(ById, positive));
  }

  lemma NotYet(bonds: seq<Bond>, i: nat)
    requires i < |bonds| && bonds[i].validatorId !in Ids(bonds)[..i]
    ensures bonds[i] !in bonds[..i]
  {
    forall k | 0 <= k < i
      ensures bonds[k] != bonds[i]
    {
      assert Ids(bonds)[..i][k] == bonds[k].validatorId;
    }
  }

  lemma SameId(bonds: seq<Bond>, x: Bond, y: Bond)
    requires Distinct(Ids(bonds)) && x in bonds && y in bonds && x.validatorId == y.validatorId
    ensures x == y
  {
    var i :| 0 <= i < |bonds| && bonds[i] == x;
    var j :| 0 <= j < |bonds| && bonds[j] == y;
    assert Ids(bonds)[i] == Ids(bonds)[j];
  }

  lemma RollSorted(bonds: seq<Bond>, positive: seq<Bond>)
    requires Distinct(Ids(bonds)) && Distinct(positive)
    requires forall b :: b in positive <==> b in bonds && b.bondedStake > 0
    ensures IsRoll(bonds, Sort(ById, positive))
  {
    var roll := Sort(ById, positive);
    AtMostIsTotalOrder();
    forall x, y | x in Elements(positive) && y in Elements(positive) && x.validatorId == y.validatorId
      ensures x == y
    {
      SameId(bonds, x, y);
    }
    ListsElements(positive);
    SortPermutes(ById, positive);
    SortSorts(ById, positive);
    forall b
      ensures b in roll <==> b in positive
    {
      assert b in roll <==> b in Elements(roll);
      assert b in positive <==> b in Elements(positive);
    }
    assert Lists(Elements(positive), roll);
    forall i, j | 0 <= i < j < |roll|
      ensures Ids(roll)[i] != Ids(roll)[j]
    {
      ListedOnce(Elements(positive), roll, i, j);
      assert roll[i] in roll && roll[j] in roll;
    }
  }

  /** The roll does not depend on the order of the snapshot. */
  lemma RollUnique(a: seq<Bond>, b: seq<Bond>, x: seq<Bond>, y: seq<Bond>)
    requires (forall v :: v in a <==> v in b) && IsRoll(a, x) && IsRoll(b, y)
    ensures x == y
  {
    AtMostIsTotalOrder();
    DistinctRoll(x);
    DistinctRoll(y);
    ListsElements(x);
    ListsElements(y);
    assert Elements(x) == Elements(y);
    forall u, v | u in Elements(x) && v in Elements(x) && u.validatorId == v.validatorId
      ensures u == v
    {
      SameId(x, u, v);
    }
    SortedUnique(ById, x, y);
  }

  lemma DistinctRoll(x: seq<Bond>)
    requires Distinct(Ids(x))
    ensures Distinct(x)
  {
    forall i, j | 0 <= i < j < |x|
      ensures x[i] != x[j]
    {
      assert Ids(x)[i] != Ids(x)[j];
    }
  }

  // ---------- Selection ----------

  /** The first validator whose cumulative stake exceeds the residue. */
  function Pick(roll: seq<Bond>, residue: int): Option<Bytes> {
    if roll == [] then None
    else
      var earlier := Pick(roll[..|roll| - 1], residue);
      if earlier.Some? then earlier
      else if residue < Stake(roll) then Some(roll[|roll| - 1].validatorId)
      else None
  }

  predicate AllPositive(roll: seq<Bond>) {
    forall i | 0 <= i < |roll| :: roll[i].bondedStake > 0
  }

  /** Each validator owns the interval of residues after those before it in the roll. */
  lemma {:induction false} PickIntervals(roll: seq<Bond>, residue: int, i: nat)
    requires AllPositive(roll) && Distinct(Ids(roll)) && i < |roll|
    ensures Pick(roll, residue).Some? <==> residue < Stake(roll)
    ensures 0 <= residue ==>
              (Pick(roll, residue) == Some(roll[i].validatorId) <==> Stake(roll[..i]) <= residue < Stake(roll[..i + 1]))
    ensures 0 <= Stake(roll[..i]) && Stake(roll[..i + 1]) <= Stake(roll)
    ensures Stake(roll[..i + 1]) == Stake(roll[..i]) + roll[i].bondedStake
    ensures Pick(roll, residue).Some? ==> Pick(roll, residue).value in Ids(roll)
  {
    var n := |roll| - 1;
    var rest := roll[..n];
    assert roll[..n + 1] == roll;
    assert roll[..i + 1][..i] == roll[..i];
    IdsSplit(roll);
    if n > 0 {
      var k := if i < n then i else n - 1;
      PickIntervals(rest, residue, k);
      assert rest[..k] == roll[..k] && rest[..k + 1] == roll[..k + 1];
      PickIsEarlier(rest, residue);
      hide Ids, Distinct, AllPositive;
      if i == n {
        assert rest[..n] == rest;
      }
    } else {
      assert rest == [] && roll[..0] == [] && roll[..1] == roll;
    }
  }

  lemma IdsSplit(roll: seq<Bond>)
    requires AllPositive(roll) && Distinct(Ids(roll)) && roll != []
    ensures var n := |roll| - 1;
            && Distinct(Ids(roll[..n])) && AllPositive(roll[..n]) && roll[n].bondedStake > 0
            && Ids(roll) == Ids(roll[..n]) + [roll[n].validatorId]
            && roll[n].validatorId !in Ids(roll[..n])
            && forall k | 0 <= k < n :: roll[k].validatorId != roll[n].validatorId
  {
    var n := |roll| - 1;
    forall k | 0 <= k < n
      ensures roll[k].validatorId != roll[n].validatorId
    {
      assert Ids(roll)[k] != Ids(roll)[n];
    }
    forall i, j | 0 <= i < j < n
      ensures Ids(roll[..n])[i] != Ids(roll[..n])[j]
    {
      assert Ids(roll)[i] != Ids(roll)[j];
    }
  }

  lemma {:induction false} PickIsEarlier(roll: seq<Bond>, residue: int)
    requires AllPositive(roll)
    ensures Pick(roll, residue).Some? ==> Pick(roll, residue).value in Ids(roll)
  {
    if roll != [] {
      var n := |roll| - 1;
      PickIsEarlier(roll[..n], residue);
      assert Ids(roll) == Ids(roll[..n]) + [roll[n].validatorId];
    }
  }

  /** The integers from lo up to, not including, hi. */
  ghost function Interval(lo: int, hi: int): (r: set<int>)
    ensures |r| == if lo < hi then hi - lo else 0
    ensures forall x :: x in r <==> lo <= x < hi
    decreases hi - lo
  {
    if lo < hi then Interval(lo, hi - 1) + {hi - 1} else {}
  }

  /** The residues below the total stake that select a validator. */
  ghost function Selecting(roll: seq<Bond>, id: Bytes): set<int> {
    set r | r in Interval(0, Stake(roll)) && Pick(roll, r) == Some(id)
  }

  /** Exactly as many of the residues below the total stake select a validator as it has stake, and
      every residue selects someone. */
  lemma ChanceIsStake(roll: seq<Bond>, i: nat)
    requires AllPositive(roll) && Distinct(Ids(roll)) && i < |roll|
    ensures |Selecting(roll, roll[i].validatorId)| == roll[i].bondedStake
    ensures forall r | 0 <= r < Stake(roll) :: Pick(roll, r).Some?
  {
    hide AllPositive, Ids, Distinct, Pick, Stake;
    var lo, hi := Stake(roll[..i]), Stake(roll[..i + 1]);
    PickIntervals(roll, 0, i);
    forall r | 0 <= r < Stake(roll)
      ensures Pick(roll, r).Some? && (Pick(roll, r) == Some(roll[i].validatorId) <==> lo <= r < hi)
    {
      PickIntervals(roll, r, i);
    }
    assert Selecting(roll, roll[i].validatorId) == Interval(lo, hi);
    assert hi == lo + roll[i].bondedStake;
    hide Interval, Selecting;
    StakePositive(roll, i);
  }

  lemma StakePositive(roll: seq<Bond>, i: nat)
    requires AllPositive(roll) && i < |roll|
    ensures roll[i].bondedStake > 0
  {
  }

  /** What the draw can be computed from: a block hash and a height that fits 64 unsigned bits safely. */
  predicate DrawOk(previous: Bytes, height: int) {
    Audit.IsHex64(previous) && 0 <= height <= MAX_SAFE_INTEGER
  }

  /** Refused stands for a thrown error. */
  datatype Choice = Nobody | Chosen(validatorId: Bytes) | Refused

  ghost function ProposerOf(draw: Draw, s: Snapshot, previous: Bytes, height: int, roll: seq<Bond>): Choice {
    if roll == [] then Nobody
    else if !DrawOk(previous, height) || Stake(roll) <= 0 then Refused
    else
      var pick := Pick(roll, draw(previous, height, s) % Stake(roll));
      if pick.None? then Refused else Chosen(pick.value)
  }

  /** Validator i of a roll proposes exactly when the draw, reduced modulo the total stake, falls among the
      residues that its own stake adds to the stake of those before it. */
  lemma ProposerMeans(draw: Draw, s: Snapshot, previous: Bytes, height: int, roll: seq<Bond>, i: nat)
    requires IsRoll(s.validators, roll) && i < |roll| && DrawOk(previous, height)
    ensures Stake(roll) > 0
    ensures ProposerOf(draw, s, previous, height, roll) == Chosen(roll[i].validatorId) <==>
              var residue := draw(previous, height, s) % Stake(roll);
              Stake(roll[..i]) <= residue < Stake(roll[..i]) + roll[i].bondedStake
  {
    RollPositive(s.validators, roll);
    PickIntervals(roll, 0, i);
    StakePositive(roll, i);
    hide IsRoll, Ids, Distinct, AllPositive, Pick, Stake;
    PickIntervals(roll, draw(previous, height, s) % Stake(roll), i);
  }

  lemma RollPositive(bonds: seq<Bond>, roll: seq<Bond>)
    requires IsRoll(bonds, roll)
    ensures AllPositive(roll) && Distinct(Ids(roll))
  {
    forall i | 0 <= i < |roll|
      ensures roll[i].bondedStake > 0
    {
      assert roll[i] in roll;
    }
  }

  /** A roll lists exactly the validators with stake, their ids ascending byte by byte. */
  lemma RollMeans(bonds: seq<Bond>, roll: seq<Bond>)
    requires IsRoll(bonds, roll)
    ensures forall i, j | 0 <= i < j < |roll| :: Compare(roll[i].validatorId, roll[j].validatorId) < 0
    ensures forall i | 0 <= i < |roll| :: roll[i] in bonds && roll[i].bondedStake > 0
    ensures forall b | b in bonds && b.bondedStake > 0 :: exists i :: 0 <= i < |roll| && roll[i] == b
  {
    BeforeIsStrictOrder();
    forall i, j | 0 <= i < j < |roll|
      ensures Before(roll[i].validatorId, roll[j].validatorId)
    {
      assert Ids(roll)[i] != Ids(roll)[j];
      assert ById(roll[i], roll[j]);
    }
    forall i | 0 <= i < |roll|
      ensures roll[i] in bonds && roll[i].bondedStake > 0
    {
      assert roll[i] in roll;
    }
    assert forall b | b in bonds && b.bondedStake > 0 :: b in roll;
  }

  method SelectBlockProposer(draw: Draw, s: Snapshot, previous: Bytes, height: int) returns (r: Choice)
    ensures !SnapshotOk(s) ==> r == Refused
    ensures SnapshotOk(s) ==>
              exists roll :: IsRoll(s.validators, roll) && r == ProposerOf(draw, s, previous, height, roll)
    ensures r == Refused <==>
              !SnapshotOk(s) || (!DrawOk(previous, height) && exists b :: b in s.validators && b.bondedStake > 0)
    ensures r.Chosen? ==> exists b :: b in s.validators && b.bondedStake > 0 && b.validatorId == r.validatorId
  {
    var maybe := SortedPositiveValidators(s);
    if maybe.None? {
      return Refused;
    }
    var roll := maybe.value;
    if |roll| == 0 {
      return Nobody;
    }
    if !DrawOk(previous, height) {
      assert roll[0] in roll;
      return Refused;
    }
    forall i | 0 <= i < |roll|
      ensures roll[i].bondedStake > 0
    {
      assert roll[i] in roll;
    }
    hide Ids, Distinct, SortedBy;
    var total := SumStake(roll);
    PickIntervals(roll, 0, 0);
    assert total > 0 by {
      StakePositive(roll, 0);
    }
    var residue := draw(previous, height, s) % total;
    PickIntervals(roll, residue, 0);
    PickOnRoll(s.validators, roll, residue);
    hide Pick, Stake;
    var id := FirstAbove(roll, residue);
    r := if id.Some? then Chosen(id.value) else Refused;
  }

  lemma PickOnRoll(bonds: seq<Bond>, roll: seq<Bond>, residue: int)
    requires IsRoll(bonds, roll) && AllPositive(roll)
    ensures Pick(roll, residue).Some? ==>
              exists b :: b in bonds && b.bondedStake > 0 && Some(b.validatorId) == Pick(roll, residue)
  {
    PickIsEarlier(roll, residue);
    if Pick(roll, residue).Some? {
      var i :| 0 <= i < |roll| && Ids(roll)[i] == Pick(roll, residue).value;
      assert roll[i] in roll;
    }
  }

  /** The cumulative loop. */
  method FirstAbove(roll: seq<Bond>, residue: int) returns (id: Option<Bytes>)
    ensures id == Pick(roll, residue)
  {
    var cumulative := 0;
    var i := 0;
    while i < |roll|
      invariant i <= |roll| && cumulative == Stake(roll[..i]) && Pick(roll[..i], residue).None?
    {
      assert roll[..i + 1][..i] == roll[..i];
      cumulative := cumulative + roll[i].bondedStake;
      if residue < cumulative {
        PickPrefix(roll, i + 1, residue);
        return Some(roll[i].validatorId);
      }
      i := i + 1;
    }
    assert roll[..i] == roll;
    id := None;
  }

  method SumStake(roll: seq<Bond>) returns (total: int)
    ensures total == Stake(roll)
  {
    total := 0;
    var i := 0;
    while i < |roll|
      invariant i <= |roll| && total == Stake(roll[..i])
    {
      assert roll[..i + 1][..i] == roll[..i];
      total := total + roll[i].bondedStake;
      i := i + 1;
    }
    assert roll[..i] == roll;
  }

  lemma {:induction false} PickPrefix(roll: seq<Bond>, k: nat, residue: int)
    requires k <= |roll| && Pick(roll[..k], residue).Some?
    ensures Pick(roll, residue) == Pick(roll[..k], residue)
  {
    if k < |roll| {
      assert roll[..|roll| - 1][..k] == roll[..k];
      PickPrefix(roll[..|roll| - 1], k, residue);
    } else {
      assert roll[..k] == roll;
    }
  }

  /** The schedule does not depend on the order in which the snapshot lists its validators. */
  lemma OrderIrrelevant(draw: Draw, s: Snapshot, t: Snapshot, previous: Bytes, height: int, x: seq<Bond>, y: seq<Bond>)
    requires forall v :: v in s.validators <==> v in t.validators
    requires draw(previous, height, s) == draw(previous, height, t)
    requires IsRoll(s.validators, x) && IsRoll(t.validators, y)
    ensures ProposerOf(draw, s, previous, height, x) == ProposerOf(draw, t, previous, height, y)
  {
    RollUnique(s.validators, t.validators, x, y);
  }
}
