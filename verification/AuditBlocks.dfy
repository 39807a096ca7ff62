/** The audit verdicts a block may carry, and what that means for the whole chain. */
module AuditBlocks {
  import opened Canonical
  import opened Collections
  import opened Audit

  const MAX_VERDICTS: nat := 64

  /** What block validation takes from the active chain: whether a record's beacon, claim, window and
      committee are those that the chain determines. */
  type ChainCheck = Record -> bool

  // ---------- One block ----------

  /** One record, against the chain before the block. */
  ghost predicate RecordOk(p: Protocol, bound: ChainCheck, committed: set<Bytes>, height: int, r: Record) {
    var a := r.request.assignment;
    && r.auditId !in committed
    && ValidRecord(p, r)
    && r.finalizedAt < height && a.claimHeight < height && a.beaconHeight < height
    && bound(r)
  }

  ghost predicate AscendingIds(rs: seq<Record>) {
    forall i, j {:trigger rs[i], rs[j]} | 0 <= i < j < |rs| :: Before(rs[i].auditId, rs[j].auditId)
  }

  /** Few enough, in strictly ascending order of audit id, and each one new and valid. */
  ghost predicate VerdictsOk(p: Protocol, bound: ChainCheck, committed: set<Bytes>, height: int, rs: seq<Record>) {
    && |rs| <= MAX_VERDICTS && AscendingIds(rs)
    && AllHex(rs) && AllRecordsOk(p, bound, committed, height, rs)
  }

  predicate AllHex(rs: seq<Record>) {
    forall i | 0 <= i < |rs| :: IsHex64(rs[i].auditId)
  }

  ghost predicate AllRecordsOk(p: Protocol, bound: ChainCheck, committed: set<Bytes>, height: int, rs: seq<Record>) {
    forall i {:trigger RecordOk(p, bound, committed, height, rs[i])} | 0 <= i < |rs| ::
         RecordOk(p, bound, committed, height, rs[i])
  }

  method ValidateAuditVerdicts(p: Protocol, bound: ChainCheck, committed: set<Bytes>, height: int, rs: seq<Record>)
    returns (ok: bool)
    ensures ok <==> VerdictsOk(p, bound, committed, height, rs)
  {
    hide AllHex, ValidRecord, RecordOk, Before;
    if |rs| > MAX_VERDICTS || !AllHex(rs) {
      return false;
    }
    var seen: set<Bytes> := {};
    var previous: Bytes := [];
    var i := 0;
    assert AscendingIds(rs[..0]);
    hide AscendingIds;
    while i < |rs|
      invariant i <= |rs| && AscendingIds(rs[..i])
      invariant AllRecordsOk(p, bound, committed, height, rs[..i])
      invariant forall id :: id in seen <==> exists k :: 0 <= k < i && rs[k].auditId == id
      invariant previous == if i == 0 then [] else rs[i - 1].auditId
    {
      var r := rs[i];
      if r.auditId in seen || (previous != [] && !Before(previous, r.auditId)) {
        BreaksOrder(rs, i, r.auditId in seen);
        return false;
      }
      ok := ValidateRecord(p, bound, committed, height, r);
      if !ok {
        assert !RecordOk(p, bound, committed, height, rs[i]);
        return;
      }
      NextAscends(rs, i);
      assert rs[..i + 1] == rs[..i] + [r];
      seen := seen + {r.auditId};
      previous := r.auditId;
      i := i + 1;
    }
    assert rs[..i] == rs;
    ok := true;
  }

  lemma BreaksOrder(rs: seq<Record>, i: nat, repeated: bool)
    requires i < |rs|
    requires if repeated then exists k :: 0 <= k < i && rs[k].auditId == rs[i].auditId
             else i > 0 && !Before(rs[i - 1].auditId, rs[i].auditId)
    ensures !AscendingIds(rs)
  {
    BeforeIsStrictOrder();
    if repeated {
      var k :| 0 <= k < i && rs[k].auditId == rs[i].auditId;
      assert !Before(rs[k].auditId, rs[i].auditId);
    }
  }

  method ValidateRecord(p: Protocol, bound: ChainCheck, committed: set<Bytes>, height: int, r: Record) returns (ok: bool)
    ensures ok <==> RecordOk(p, bound, committed, height, r)
  {
    if r.auditId in committed {
      return false;
    }
    ok := ValidateAuditVerdictRecord(p, r);
    if !ok {
      return;
    }
    var a := r.request.assignment;
    ok := r.finalizedAt < height && a.claimHeight < height && a.beaconHeight < height && bound(r);
  }

  lemma NextAscends(rs: seq<Record>, i: nat)
    requires i < |rs| && AscendingIds(rs[..i])
    requires forall k | 0 <= k < i :: rs[k].auditId != rs[i].auditId
    requires i == 0 || rs[i - 1].auditId == [] || Before(rs[i - 1].auditId, rs[i].auditId)
    ensures AscendingIds(rs[..i + 1])
  {
    BeforeIsStrictOrder();
    var before, after := rs[..i], rs[..i + 1];
    forall a, b | 0 <= a < b < i + 1
      ensures Before(after[a].auditId, after[b].auditId)
    {
      if b < i {
        assert Before(before[a].auditId, before[b].auditId);
      } else if a < i - 1 {
        assert Before(before[a].auditId, before[i - 1].auditId);
      }
    }
  }

  // ---------- Every chain ----------

  /** The verdicts of the blocks from height 1 up, each block checked against those before it. The
      chain check may depend on the height. */
  function CommittedBy(blocks: seq<seq<Record>>): set<Bytes> {
    if blocks == [] then {}
    else CommittedBy(blocks[..|blocks| - 1]) + IdsOf(blocks[|blocks| - 1])
  }

  ghost predicate AcceptedChain(p: Protocol, bound: int -> ChainCheck, blocks: seq<seq<Record>>) {
    blocks == [] ||
    (AcceptedChain(p, bound, blocks[..|blocks| - 1])
     && VerdictsOk(p, bound(|blocks|), CommittedBy(blocks[..|blocks| - 1]), |blocks|, blocks[|blocks| - 1]))
  }

  function Verdicts(blocks: seq<seq<Record>>): seq<Record> {
    if blocks == [] then [] else Verdicts(blocks[..|blocks| - 1]) + blocks[|blocks| - 1]
  }

  function IdsOf(rs: seq<Record>): set<Bytes> {
    set r | r in rs :: r.auditId
  }

  lemma {:induction false} CommittedAreVerdicts(blocks: seq<seq<Record>>)
    ensures CommittedBy(blocks) == IdsOf(Verdicts(blocks))
  {
    if blocks != [] {
      var n := |blocks| - 1;
      CommittedAreVerdicts(blocks[..n]);
      assert forall r :: r in Verdicts(blocks) <==> r in Verdicts(blocks[..n]) || r in blocks[n];
    }
  }

  /** Over a whole chain every audit has at most one committed verdict, and each is valid on its own. */
  lemma {:induction false} AuditsCommittedOnce(p: Protocol, bound: int -> ChainCheck, blocks: seq<seq<Record>>)
    requires AcceptedChain(p, bound, blocks)
    ensures forall i, j | 0 <= i < j < |Verdicts(blocks)| :: Verdicts(blocks)[i].auditId != Verdicts(blocks)[j].auditId
    ensures forall i | 0 <= i < |Verdicts(blocks)| :: ValidRecord(p, Verdicts(blocks)[i])
  {
    if blocks != [] {
      hide ValidRecord;
      var n := |blocks| - 1;
      AuditsCommittedOnce(p, bound, blocks[..n]);
      BeforeIsStrictOrder();
      var before, last := Verdicts(blocks[..n]), blocks[n];
      var committed := CommittedBy(blocks[..n]);
      forall k | 0 <= k < |last|
        ensures ValidRecord(p, last[k])
        ensures forall i | 0 <= i < |before| :: before[i].auditId != last[k].auditId
      {
        assert RecordOk(p, bound(|blocks|), committed, |blocks|, last[k]);
        CommittedAreVerdicts(blocks[..n]);
        assert forall i | 0 <= i < |before| :: before[i].auditId in IdsOf(before);
      }
    }
  }

  /** A block's list of verdicts: at most sixty-four of them, with the ids as hexadecimal digits in strictly
      ascending order, each valid, finished before the block and bound to the chain. */
  ghost predicate Carries(p: Protocol, bound: ChainCheck, height: int, rs: seq<Record>) {
    && |rs| <= 64
    && (forall i, j | 0 <= i < j < |rs| :: Before(rs[i].auditId, rs[j].auditId))
    && forall i | 0 <= i < |rs| ::
         && IsHex64(rs[i].auditId) && ValidRecord(p, rs[i]) && bound(rs[i])
         && rs[i].finalizedAt < height
         && rs[i].request.assignment.claimHeight < height
         && rs[i].request.assignment.beaconHeight < height
  }

  /** No audit has two verdicts. */
  predicate OneEach(rs: seq<Record>) {
    forall i, j | 0 <= i < j < |rs| :: rs[i].auditId != rs[j].auditId
  }

  /** A chain is accepted exactly when each block carries such a list and no audit has two verdicts in it. */
  lemma {:induction false} AcceptedExactly(p: Protocol, bound: int -> ChainCheck, blocks: seq<seq<Record>>)
    ensures AcceptedChain(p, bound, blocks) <==>
              && (forall h | 1 <= h <= |blocks| :: Carries(p, bound(h), h, blocks[h - 1]))
              && OneEach(Verdicts(blocks))
  {
    if blocks != [] {
      hide ValidRecord, Carries, VerdictsOk, OneEach;
      var n := |blocks| - 1;
      AcceptedExactly(p, bound, blocks[..n]);
      CommittedAreVerdicts(blocks[..n]);
      CarriesExactly(p, bound(n + 1), Verdicts(blocks[..n]), n + 1, blocks[n]);
      EachBlock(p, bound, blocks);
    }
  }

  lemma EachBlock(p: Protocol, bound: int -> ChainCheck, blocks: seq<seq<Record>>)
    requires blocks != []
    ensures var n := |blocks| - 1;
            (forall h | 1 <= h <= n + 1 :: Carries(p, bound(h), h, blocks[h - 1])) <==>
              && (forall h | 1 <= h <= n :: Carries(p, bound(h), h, blocks[..n][h - 1]))
              && Carries(p, bound(n + 1), n + 1, blocks[n])
  {
    hide Carries;
    var n := |blocks| - 1;
    assert forall k | 0 <= k < n :: blocks[..n][k] == blocks[k];
  }

  /** After a list without repetition, a block is fine exactly when it carries its own and repeats no id. */
  lemma CarriesExactly(p: Protocol, bound: ChainCheck, before: seq<Record>, height: int, rs: seq<Record>)
    ensures OneEach(before + rs) ==> OneEach(before)
    ensures OneEach(before) ==>
              (VerdictsOk(p, bound, IdsOf(before), height, rs) <==> Carries(p, bound, height, rs) && OneEach(before + rs))
  {
    hide ValidRecord, Before, IsHex64;
    var all := before + rs;
    assert all[..|before|] == before;
    assert forall i | 0 <= i < |before| :: all[i] == before[i] && before[i].auditId in IdsOf(before);
    assert forall k | 0 <= k < |rs| :: all[|before| + k] == rs[k];
    if Carries(p, bound, height, rs) && OneEach(all) {
      forall k | 0 <= k < |rs|
        ensures RecordOk(p, bound, IdsOf(before), height, rs[k])
      {
      }
    }
    if OneEach(before) && VerdictsOk(p, bound, IdsOf(before), height, rs) {
      forall k | 0 <= k < |rs|
        ensures RecordOk(p, bound, IdsOf(before), height, rs[k])
      {
      }
      AscendingDiffer(rs);
    }
  }

  lemma AscendingDiffer(rs: seq<Record>)
    requires AscendingIds(rs)
    ensures forall i, j | 0 <= i < j < |rs| :: rs[i].auditId != rs[j].auditId
  {
    BeforeIsStrictOrder();
  }
}
