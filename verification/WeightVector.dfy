/**
 The epoch's weight vector: every scored miner scaled by what is not burned, the burned share
 on the owner, rounded so that the largest share gets the largest weight.
 */
module WeightVector {
  import opened Common
  import opened BurnEconomics

  const MAX_WEIGHT: int := U16_MAX

  datatype MinerScore = MinerScore(uid: u64, score: nat)

  /** A UID with its share, or with its emitted weight. */
  datatype Entry = Entry(uid: u16, amount: nat)

  datatype WeightError = NotAChainUid(uid: u64)

  // ----- sorted maps from UID to amount

  /** Strictly ascending UIDs, all above `low`. */
  predicate Ascending(m: seq<Entry>, low: int) {
    m == [] || (low < m[0].uid && Ascending(m[1..], m[0].uid))
  }

  /** The sorted map `m` with `amount` added to what it holds for `uid`. */
  function AddShare(m: seq<Entry>, uid: u16, amount: nat): seq<Entry> {
    if m == [] || uid < m[0].uid then [Entry(uid, amount)] + m
    else if uid == m[0].uid then [Entry(uid, m[0].amount + amount)] + m[1..]
    else [m[0]] + AddShare(m[1..], uid, amount)
  }

  function AmountOf(m: seq<Entry>, uid: int): nat {
    if m == [] then 0 else (if m[0].uid == uid then m[0].amount else 0) + AmountOf(m[1..], uid)
  }

  function Total(m: seq<Entry>): nat {
    if m == [] then 0 else m[0].amount + Total(m[1..])
  }

  function Highest(m: seq<Entry>): nat {
    if m == [] then 0 else Max(m[0].amount, Highest(m[1..]))
  }

  function Uids(m: seq<Entry>): set<int> {
    if m == [] then {} else {m[0].uid} + Uids(m[1..])
  }

  lemma {:induction false} AddShareAdds(m: seq<Entry>, uid: u16, amount: nat, low: int)
    requires Ascending(m, low) && low < uid
    ensures Ascending(AddShare(m, uid, amount), low)
    ensures Total(AddShare(m, uid, amount)) == Total(m) + amount
    ensures Uids(AddShare(m, uid, amount)) == Uids(m) + {uid}
  {
    var r := AddShare(m, uid, amount);
    if m == [] || uid < m[0].uid {
      assert r[1..] == m;
    } else if uid == m[0].uid {
      assert r[1..] == m[1..];
    } else {
      AddShareAdds(m[1..], uid, amount, m[0].uid);
      assert r[1..] == AddShare(m[1..], uid, amount);
    }
  }

  lemma {:induction false} AddShareAmount(m: seq<Entry>, uid: u16, amount: nat, u: int)
    ensures AmountOf(AddShare(m, uid, amount), u) == AmountOf(m, u) + if u == uid then amount else 0
  {
    var r := AddShare(m, uid, amount);
    if m == [] || uid < m[0].uid {
      assert r[1..] == m;
    } else if uid == m[0].uid {
      assert r[1..] == m[1..];
    } else {
      AddShareAmount(m[1..], uid, amount, u);
      assert r[1..] == AddShare(m[1..], uid, amount);
    }
  }

  lemma {:induction false} AmountBounds(m: seq<Entry>, low: int, uid: int)
    requires Ascending(m, low)
    ensures uid <= low ==> AmountOf(m, uid) == 0
    ensures AmountOf(m, uid) <= Highest(m) <= Total(m)
  {
    if m != [] { AmountBounds(m[1..], m[0].uid, uid); }
  }

  /** The amount held at an index is the amount held for its UID. */
  lemma {:induction false} AmountAt(m: seq<Entry>, low: int, i: nat)
    requires Ascending(m, low) && i < |m|
    ensures low < m[i].uid && AmountOf(m, m[i].uid) == m[i].amount <= Highest(m)
  {
    if i == 0 {
      AmountBounds(m[1..], m[0].uid, m[0].uid);
    } else {
      AmountAt(m[1..], m[0].uid, i - 1);
    }
  }

  lemma {:induction false} HighestIsHeld(m: seq<Entry>) returns (i: nat)
    requires m != []
    ensures i < |m| && m[i].amount == Highest(m)
  {
    i := 0;
    if |m| == 1 {
      assert m[1..] == [];
    } else if Highest(m) > m[0].amount {
      i := HighestIsHeld(m[1..]);
      i := i + 1;
    }
  }

  predicate AllPositive(m: seq<Entry>) {
    forall i :: 0 <= i < |m| ==> m[i].amount > 0
  }

  /** A sorted map of positive amounts is determined by what it holds for each UID. */
  lemma {:induction false} SortedMapsAreEqual(a: seq<Entry>, b: seq<Entry>, low: int)
    requires Ascending(a, low) && Ascending(b, low) && AllPositive(a) && AllPositive(b)
    requires forall u: int :: AmountOf(a, u) == AmountOf(b, u)
    ensures a == b
  {
    if a != [] { AmountAt(a, low, 0); }
    if b != [] { AmountAt(b, low, 0); }
    if a != [] && b != [] {
      var u, v := a[0].uid, b[0].uid;
      assert AmountOf(a, u) == AmountOf(b, u) && AmountOf(a, v) == AmountOf(b, v);
      if u < v { AmountBounds(b[1..], v, u); }
      if v < u { AmountBounds(a[1..], u, v); }
      assert a[0] == b[0];
      forall w: int ensures AmountOf(a[1..], w) == AmountOf(b[1..], w) {
        assert AmountOf(a, w) == AmountOf(b, w);
      }
      SortedMapsAreEqual(a[1..], b[1..], a[0].uid);
      assert a == [a[0]] + a[1..] && b == [b[0]] + b[1..];
    }
  }

  // ----- exact shares

  function TotalScore(miners: seq<MinerScore>): nat {
    if miners == [] then 0 else TotalScore(miners[..|miners| - 1]) + miners[|miners| - 1].score
  }

  /** The score of every record naming `uid`, added up. */
  function ScoreOf(miners: seq<MinerScore>, uid: int): nat {
    if miners == [] then 0
    else
      var last := miners[|miners| - 1];
      ScoreOf(miners[..|miners| - 1], uid) + if last.uid == uid then last.score else 0
  }

  /** The share of the epoch due to `uid`, scaled by total * BPS. */
  function ExactShare(miners: seq<MinerScore>, owner: u16, burn: Bps, uid: int): nat {
    var kept: nat := ScoreOf(miners, uid) * (BPS - burn);
    var burned: nat := if uid == owner then TotalScore(miners) * burn else 0;
    kept + burned
  }

  function Accumulate(miners: seq<MinerScore>, keep: nat): Result<seq<Entry>, WeightError> {
    if miners == [] then Ok([])
    else
      var last := miners[|miners| - 1];
      match Accumulate(miners[..|miners| - 1], keep)
      case Err(e) => Err(e)
      case Ok(m) =>
        if last.uid > U16_MAX then Err(NotAChainUid(last.uid)) else Ok(AddShare(m, last.uid, last.score * keep))
  }

  function Shares(miners: seq<MinerScore>, owner: u16, burn: Bps): Result<seq<Entry>, WeightError> {
    match Accumulate(miners, BPS - burn)
    case Err(e) => Err(e)
    case Ok(m) => Ok(AddShare(m, owner, TotalScore(miners) * burn))
  }

  /** Every record names a UID the chain can hold. */
  predicate ChainUids(miners: seq<MinerScore>) {
    forall i :: 0 <= i < |miners| ==> miners[i].uid <= U16_MAX
  }

  function UidsOf(miners: seq<MinerScore>): set<int> {
    if miners == [] then {} else UidsOf(miners[..|miners| - 1]) + {miners[|miners| - 1].uid}
  }

  lemma {:induction false} AccumulateAccepts(miners: seq<MinerScore>, keep: nat)
    ensures Accumulate(miners, keep).Ok? <==> ChainUids(miners)
    ensures Accumulate(miners, keep).Ok? ==>
              var m := Accumulate(miners, keep).value;
              Ascending(m, -1) && Total(m) == TotalScore(miners) * keep && Uids(m) == UidsOf(miners)
  {
    hide AddShare, Ascending, Total, Uids;
    if miners == [] {
      EmptyMap();
    } else {
      var init, last := miners[..|miners| - 1], miners[|miners| - 1];
      AccumulateAccepts(init, keep);
      ChainUidsLast(miners);
      if ChainUids(miners) {
        AddShareAdds(Accumulate(init, keep).value, last.uid, last.score * keep, -1);
        Distribute(TotalScore(init), last.score, keep);
      }
    }
  }

  lemma EmptyMap()
    ensures Ascending([], -1) && Total([]) == 0 && Uids([]) == {}
  {}

  lemma ChainUidsLast(miners: seq<MinerScore>)
    requires miners != []
    ensures ChainUids(miners) <==> ChainUids(miners[..|miners| - 1]) && miners[|miners| - 1].uid <= U16_MAX
  {}

  lemma Distribute(a: int, b: int, k: int)
    ensures (a + b) * k == a * k + b * k
  {}

  lemma {:induction false} AccumulateAmount(miners: seq<MinerScore>, keep: nat, u: int)
    requires Accumulate(miners, keep).Ok?
    ensures AmountOf(Accumulate(miners, keep).value, u) == ScoreOf(miners, u) * keep
  {
    hide AddShare;
    if miners != [] {
      var init, last := miners[..|miners| - 1], miners[|miners| - 1];
      AccumulateAmount(init, keep, u);
      AddShareAmount(Accumulate(init, keep).value, last.uid, last.score * keep, u);
      Distribute(ScoreOf(init, u), if last.uid == u then last.score else 0, keep);
    }
  }

  /** The map holds each UID once and loses none of the total, even when the owner mines. */
  lemma SharesConserve(miners: seq<MinerScore>, owner: u16, burn: Bps)
    ensures Shares(miners, owner, burn).Ok? <==> ChainUids(miners)
    ensures Shares(miners, owner, burn).Ok? ==>
              var m := Shares(miners, owner, burn).value;
              && Ascending(m, -1)
              && Total(m) == TotalScore(miners) * BPS
              && Uids(m) == UidsOf(miners) + {owner}
  {
    hide AddShare, Ascending, Total, Uids, TotalScore, Accumulate;
    AccumulateAccepts(miners, BPS - burn);
    if Shares(miners, owner, burn).Ok? {
      AddShareAdds(Accumulate(miners, BPS - burn).value, owner, TotalScore(miners) * burn, -1);
      SplitTotal(TotalScore(miners), burn);
    }
  }

  lemma SplitTotal(total: nat, burn: Bps)
    ensures total * (BPS - burn) + total * burn == total * BPS
  {}

  /** What the map holds for a UID is its exact share. */
  lemma SharesAreExact(miners: seq<MinerScore>, owner: u16, burn: Bps, u: int)
    requires Shares(miners, owner, burn).Ok?
    ensures AmountOf(Shares(miners, owner, burn).value, u) == ExactShare(miners, owner, burn, u)
  {
    AccumulateAmount(miners, BPS - burn, u);
    AddShareAmount(Accumulate(miners, BPS - burn).value, owner, TotalScore(miners) * burn, u);
  }

  // ----- rounding to weights

  /** `share` as a weight, to the nearest with halves up, when the largest share is `highest`. */
  function Rounded(share: nat, highest: nat): nat
    requires highest > 0
  {
    (share * MAX_WEIGHT + highest / 2) / highest
  }

  function Emit(m: seq<Entry>, highest: nat): seq<Entry>
    requires highest > 0
  {
    if m == [] then []
    else
      var weight := Rounded(m[0].amount, highest);
      (if weight > 0 then [Entry(m[0].uid, weight)] else []) + Emit(m[1..], highest)
  }

  lemma DivBounds(x: nat, d: nat)
    requires d > 0
    ensures x / d * d <= x < (x / d + 1) * d
  {}

  lemma Multiple(k: nat, r: nat, d: nat)
    requires r < d
    ensures (k * d + r) / d == k
  {
    DivBounds(k * d + r, d);
    var q := (k * d + r) / d;
    if q < k { Scale(q + 1, k, d); } else if k < q { Scale(k + 1, q, d); }
  }

  predicate Near(x: int, bound: int) {
    -bound <= x <= bound
  }

  /** The error is at most half a unit, a half is rounded up, and the top share gets the top weight. */
  lemma RoundedIsNearest(share: nat, highest: nat)
    requires 0 < highest && share <= highest
    ensures Near(2 * (Rounded(share, highest) * highest - share * MAX_WEIGHT), highest)
    ensures 2 * (share * MAX_WEIGHT - Rounded(share, highest) * highest) < highest
    ensures Rounded(share, highest) <= MAX_WEIGHT
    ensures share == highest ==> Rounded(share, highest) == MAX_WEIGHT
  {
    DivBounds(share * MAX_WEIGHT + highest / 2, highest);
    assert (Rounded(share, highest) + 1) * highest == Rounded(share, highest) * highest + highest;
    Scale(share, highest, MAX_WEIGHT);
    Multiple(MAX_WEIGHT, highest / 2, highest);
    if Rounded(share, highest) > MAX_WEIGHT { Scale(MAX_WEIGHT + 1, Rounded(share, highest), highest); }
  }

  lemma RoundedMonotone(a: nat, b: nat, highest: nat)
    requires highest > 0 && a <= b
    ensures Rounded(a, highest) <= Rounded(b, highest)
  {
    DivMonotone(a * MAX_WEIGHT + highest / 2, b * MAX_WEIGHT + highest / 2, highest);
  }

  lemma RoundedZero(highest: nat)
    requires highest > 0
    ensures Rounded(0, highest) == 0
  {
    Multiple(0, highest / 2, highest);
  }

  lemma {:induction false} EmitAscends(m: seq<Entry>, highest: nat, low: int)
    requires Ascending(m, low) && highest > 0 && Highest(m) <= highest
    ensures Ascending(Emit(m, highest), low)
    ensures forall i :: 0 <= i < |Emit(m, highest)| ==> 0 < Emit(m, highest)[i].amount <= MAX_WEIGHT
  {
    if m != [] {
      hide Rounded;
      EmitAscends(m[1..], highest, m[0].uid);
      RoundedIsNearest(m[0].amount, highest);
      var e, out := Emit(m[1..], highest), Emit(m, highest);
      if Rounded(m[0].amount, highest) > 0 {
        assert out[1..] == e;
      } else {
        assert out == e;
        AscendingWeaken(e, m[0].uid, low);
      }
    }
  }

  lemma AscendingWeaken(m: seq<Entry>, low: int, low': int)
    requires Ascending(m, low) && low' <= low
    ensures Ascending(m, low')
  {}

  lemma {:induction false} EmitRounds(m: seq<Entry>, highest: nat, low: int, u: int)
    requires Ascending(m, low) && highest > 0
    ensures AmountOf(Emit(m, highest), u) == Rounded(AmountOf(m, u), highest)
  {
    hide Rounded;
    RoundedZero(highest);
    if m != [] {
      EmitRounds(m[1..], highest, m[0].uid, u);
      var e, out := Emit(m[1..], highest), Emit(m, highest);
      AmountBounds(m[1..], m[0].uid, m[0].uid);
      if Rounded(m[0].amount, highest) > 0 {
        assert out[1..] == e;
      } else {
        assert out == e;
      }
    }
  }

  // ----- the vector

  /** The submitted vector as (UID, weight) pairs in UID order. */
  function Weights(miners: seq<MinerScore>, owner: u16, burn: Bps): Result<seq<Entry>, WeightError> {
    if burn == BPS || TotalScore(miners) == 0 then Ok([Entry(owner, MAX_WEIGHT)])
    else
      match Shares(miners, owner, burn)
      case Err(e) => Err(e)
      case Ok(m) =>
        HighestIsPositive(miners, owner, burn);
        Ok(Emit(m, Highest(m)))
  }

  lemma HighestIsPositive(miners: seq<MinerScore>, owner: u16, burn: Bps)
    requires TotalScore(miners) > 0 && Shares(miners, owner, burn).Ok?
    ensures 0 < Highest(Shares(miners, owner, burn).value)
  {
    SharesConserve(miners, owner, burn);
    TotalOfZeros(Shares(miners, owner, burn).value);
  }

  lemma {:induction false} TotalOfZeros(m: seq<Entry>)
    ensures Highest(m) == 0 ==> Total(m) == 0
  {
    if m != [] { TotalOfZeros(m[1..]); }
  }

  /** The accumulation over the records, as the validator runs it. */
  method ComputeWeights(miners: seq<MinerScore>, owner: u16, burn: Bps) returns (r: Result<seq<Entry>, WeightError>)
    ensures r == Weights(miners, owner, burn)
  {
    var total := TotalScore(miners);
    if burn == BPS || total == 0 {
      return Ok([Entry(owner, MAX_WEIGHT)]);
    }
    var shares: seq<Entry> := [];
    for i := 0 to |miners|
      invariant Accumulate(miners[..i], BPS - burn) == Ok(shares)
    {
      var record := miners[i];
      assert miners[..i + 1][..i] == miners[..i];
      if record.uid > U16_MAX {
        FirstErrorStands(miners, BPS - burn, i + 1);
        return Err(NotAChainUid(record.uid));
      }
      shares := AddShare(shares, record.uid, record.score * (BPS - burn));
    }
    assert miners[..|miners|] == miners;
    shares := AddShare(shares, owner, total * burn);
    HighestIsPositive(miners, owner, burn);
    return Ok(Emit(shares, Highest(shares)));
  }

  lemma {:induction false} FirstErrorStands(miners: seq<MinerScore>, keep: nat, i: nat)
    requires i <= |miners| && Accumulate(miners[..i], keep).Err?
    ensures Accumulate(miners, keep) == Accumulate(miners[..i], keep)
  {
    if i == |miners| {
      assert miners[..i] == miners;
    } else {
      assert miners[..|miners| - 1][..i] == miners[..i];
      FirstErrorStands(miners[..|miners| - 1], keep, i);
    }
  }

  /** The UID reported is that of the first record the chain has no UID for. */
  lemma {:induction false} FirstErrorIsReported(miners: seq<MinerScore>, keep: nat)
    requires Accumulate(miners, keep).Err?
    ensures exists i :: 0 <= i < |miners| && miners[i].uid > U16_MAX && ChainUids(miners[..i])
              && Accumulate(miners, keep).error == NotAChainUid(miners[i].uid)
  {
    AccumulateAccepts(miners, keep);
    var n := |miners| - 1;
    var init := miners[..n];
    AccumulateAccepts(init, keep);
    if Accumulate(init, keep).Err? {
      FirstErrorIsReported(init, keep);
      var i :| 0 <= i < n && init[i].uid > U16_MAX && ChainUids(init[..i])
        && Accumulate(init, keep).error == NotAChainUid(init[i].uid);
      assert init[..i] == miners[..i] && miners[i] == init[i];
    } else {
      assert miners[n].uid > U16_MAX && ChainUids(miners[..n]);
    }
  }

  /** A vector is refused exactly when it is shared out and some record names no chain UID; the first is reported. */
  lemma RefusesExactly(miners: seq<MinerScore>, owner: u16, burn: Bps)
    ensures Weights(miners, owner, burn).Err? <==> burn < BPS && TotalScore(miners) > 0 && !ChainUids(miners)
    ensures Weights(miners, owner, burn).Err? ==>
              exists i :: 0 <= i < |miners| && miners[i].uid > U16_MAX && ChainUids(miners[..i])
                && Weights(miners, owner, burn).error == NotAChainUid(miners[i].uid)
  {
    SharesConserve(miners, owner, burn);
    if Weights(miners, owner, burn).Err? { FirstErrorIsReported(miners, BPS - burn); }
    hide Accumulate, TotalScore, Emit, AddShare, ChainUids;
  }

  lemma {:induction false} NothingScored(miners: seq<MinerScore>)
    ensures TotalScore(miners) == 0 <==> forall i :: 0 <= i < |miners| ==> miners[i].score == 0
  {
    if miners != [] { NothingScored(miners[..|miners| - 1]); }
  }

  /** A full burn, or nothing scored, is the owner alone with the whole weight, whatever the records name. */
  lemma OwnerAlone(miners: seq<MinerScore>, owner: u16, burn: Bps, u: int)
    requires burn == BPS || forall i :: 0 <= i < |miners| ==> miners[i].score == 0
    ensures Weights(miners, owner, burn).Ok?
    ensures var w := Weights(miners, owner, burn).value;
            |w| == 1 && Total(w) == MAX_WEIGHT && AmountOf(w, u) == if u == owner then MAX_WEIGHT else 0
  {
    NothingScored(miners);
    var w := Weights(miners, owner, burn).value;
    assert w == [Entry(owner, MAX_WEIGHT)] && w[1..] == [];
    assert Total(w[1..]) == 0 && AmountOf(w[1..], u) == 0;
  }

  /** A vector that is neither a full burn nor empty of scores. */
  predicate Shared(miners: seq<MinerScore>, owner: u16, burn: Bps) {
    burn < BPS && TotalScore(miners) > 0 && Weights(miners, owner, burn).Ok?
  }

  /** The largest exact share of any UID. */
  function TopShare(miners: seq<MinerScore>, owner: u16, burn: Bps): (h: nat)
    requires Shared(miners, owner, burn)
    ensures h > 0
  {
    HighestIsPositive(miners, owner, burn);
    Highest(Shares(miners, owner, burn).value)
  }

  /** No share exceeds the top one, which some UID has; that UID is emitted with weight 65535. */
  lemma TopShareIsAttained(miners: seq<MinerScore>, owner: u16, burn: Bps, u: int) returns (top: u16)
    requires Shared(miners, owner, burn)
    ensures ExactShare(miners, owner, burn, u) <= TopShare(miners, owner, burn)
    ensures ExactShare(miners, owner, burn, top) == TopShare(miners, owner, burn)
    ensures AmountOf(Weights(miners, owner, burn).value, top) == MAX_WEIGHT
  {
    var m := Shares(miners, owner, burn).value;
    SharesConserve(miners, owner, burn);
    AmountBounds(m, -1, u);
    SharesAreExact(miners, owner, burn, u);
    var i := HighestIsHeld(m);
    top := m[i].uid;
    AmountAt(m, -1, i);
    SharesAreExact(miners, owner, burn, top);
    WeightIsRounded(miners, owner, burn, top);
    RoundedIsNearest(Highest(m), Highest(m));
  }

  /** Every UID's weight is its exact share rounded against the top share; 0 means dropped. */
  lemma WeightIsRounded(miners: seq<MinerScore>, owner: u16, burn: Bps, u: int)
    requires Shared(miners, owner, burn)
    ensures AmountOf(Weights(miners, owner, burn).value, u)
            == Rounded(ExactShare(miners, owner, burn, u), TopShare(miners, owner, burn))
  {
    SharesConserve(miners, owner, burn);
    SharesAreExact(miners, owner, burn, u);
    EmitRounds(Shares(miners, owner, burn).value, TopShare(miners, owner, burn), -1, u);
  }

  /** Emitted UIDs ascend, and every emitted weight is a positive u16. */
  lemma WeightsNormalise(miners: seq<MinerScore>, owner: u16, burn: Bps)
    requires Weights(miners, owner, burn).Ok?
    ensures var w := Weights(miners, owner, burn).value;
            && w != [] && Ascending(w, -1)
            && (forall i :: 0 <= i < |w| ==> 0 < w[i].amount <= MAX_WEIGHT)
            && Highest(w) == MAX_WEIGHT
  {
    var w := Weights(miners, owner, burn).value;
    if Shared(miners, owner, burn) {
      SharesConserve(miners, owner, burn);
      EmitAscends(Shares(miners, owner, burn).value, TopShare(miners, owner, burn), -1);
      var top := TopShareIsAttained(miners, owner, burn, 0);
      AmountBounds(w, -1, top);
      var i := HighestIsHeld(w);
    } else {
      assert w[1..] == [];
    }
  }

  /** A larger exact share never gets a smaller weight. */
  lemma LargerShareLargerWeight(miners: seq<MinerScore>, owner: u16, burn: Bps, u: int, v: int)
    requires Shared(miners, owner, burn)
    requires ExactShare(miners, owner, burn, u) <= ExactShare(miners, owner, burn, v)
    ensures AmountOf(Weights(miners, owner, burn).value, u) <= AmountOf(Weights(miners, owner, burn).value, v)
  {
    WeightIsRounded(miners, owner, burn, u);
    WeightIsRounded(miners, owner, burn, v);
    var highest := TopShare(miners, owner, burn);
    RoundedMonotone(ExactShare(miners, owner, burn, u), ExactShare(miners, owner, burn, v), highest);
  }

  // ----- how close the emitted weights are

  /** The rounding errors add up to at most half a unit per entry. */
  lemma {:induction false} ErrorsAddUp(m: seq<Entry>, highest: nat)
    requires highest > 0 && Highest(m) <= highest
    ensures Near(2 * (Total(Emit(m, highest)) * highest - Total(m) * MAX_WEIGHT), |m| * highest)
  {
    if m != [] {
      hide Rounded, Emit;
      ErrorsAddUp(m[1..], highest);
      RoundedIsNearest(m[0].amount, highest);
      EmitTotal(m, highest);
      AddErrors(Rounded(m[0].amount, highest), Total(Emit(m[1..], highest)),
                m[0].amount, Total(m[1..]), highest, |m[1..]|);
    }
  }

  lemma AddErrors(w: nat, ww: nat, s: nat, t: nat, highest: nat, n: nat)
    requires Near(2 * (w * highest - s * MAX_WEIGHT), highest)
    requires Near(2 * (ww * highest - t * MAX_WEIGHT), n * highest)
    ensures Near(2 * ((w + ww) * highest - (s + t) * MAX_WEIGHT), (n + 1) * highest)
  {
    assert (w + ww) * highest == w * highest + ww * highest;
    assert (n + 1) * highest == n * highest + highest;
  }

  lemma EmitTotal(m: seq<Entry>, highest: nat)
    requires highest > 0 && m != []
    ensures Total(Emit(m, highest)) == Rounded(m[0].amount, highest) + Total(Emit(m[1..], highest))
  {
    hide Rounded;
    var out := Emit(m, highest);
    if Rounded(m[0].amount, highest) > 0 {
      assert out[1..] == Emit(m[1..], highest);
    } else {
      assert out == Emit(m[1..], highest);
    }
  }

  /** The cross products of two ratios, each off by at most half a unit, differ by a bounded amount. */
  lemma CrossError(s: nat, t: nat, w: nat, ww: nat, highest: nat, n: nat)
    requires highest > 0 && s <= t
    requires Near(2 * (w * highest - s * MAX_WEIGHT), highest)
    requires Near(2 * (ww * highest - t * MAX_WEIGHT), n * highest)
    ensures Near(2 * (w * t - s * ww), (n + 1) * t)
  {
    CrossIdentity(s, t, w, ww, highest);
    var d, dd := 2 * (w * highest - s * MAX_WEIGHT), 2 * (ww * highest - t * MAX_WEIGHT);
    DividedError(2 * (w * t - s * ww), d, dd, s, t, highest, n);
  }

  lemma DividedError(x: int, d: int, dd: int, s: nat, t: nat, highest: nat, n: nat)
    requires highest > 0 && s <= t && x * highest == d * t - dd * s
    requires Near(d, highest) && Near(dd, n * highest)
    ensures Near(x, (n + 1) * t)
  {
    ScaleNear(d, highest, t);
    ScaleNear(dd, n * highest, s);
    Scale(s, t, n * highest);
    CombineNear(d * t, highest * t, dd * s, n * highest * t);
    Rearrange(n, t, highest);
    Unscale(x, (n + 1) * t, highest);
  }

  lemma Rearrange(n: int, t: int, highest: int)
    ensures highest * t + n * highest * t == (n + 1) * t * highest
  {
    assert n * highest * t == n * t * highest;
    assert (n + 1) * t == n * t + t;
  }

  lemma CombineNear(x: int, a: int, y: int, b: int)
    requires Near(x, a) && Near(y, b)
    ensures Near(x - y, a + b)
  {}

  lemma CrossIdentity(s: int, t: int, w: int, ww: int, highest: int)
    ensures 2 * (w * t - s * ww) * highest ==
            2 * (w * highest - s * MAX_WEIGHT) * t - 2 * (ww * highest - t * MAX_WEIGHT) * s
  {
    assert (w * highest) * t == (w * t) * highest;
    assert (ww * highest) * s == (s * ww) * highest;
    assert (s * MAX_WEIGHT) * t == (t * MAX_WEIGHT) * s;
  }

  lemma ScaleNear(x: int, bound: int, k: nat)
    requires Near(x, bound)
    ensures Near(x * k, bound * k)
  {
    Scale(x, bound, k);
    Scale(-bound, x, k);
  }

  lemma Unscale(x: int, bound: int, k: nat)
    requires k > 0 && Near(x * k, bound * k)
    ensures Near(x, bound)
  {
    if x > bound { ScaleStrict(bound, x, k); }
    if x < -bound { ScaleStrict(x, -bound, k); }
  }

  /**
   Every UID's part of the emitted total is within (n+1)/2 units of its exact part, where n is
   the number of UIDs holding a share.
   */
  lemma WeightsApproximateShares(miners: seq<MinerScore>, owner: u16, burn: Bps, uid: int)
    requires Shared(miners, owner, burn)
    ensures var w := Weights(miners, owner, burn).value;
            var n := |UidsOf(miners) + {owner}|;
            var total := TotalScore(miners) * BPS;
            Near(2 * (AmountOf(w, uid) * total - ExactShare(miners, owner, burn, uid) * Total(w)), (n + 1) * total)
  {
    hide Rounded, Emit, ExactShare;
    SharesConserve(miners, owner, burn);
    var m := Shares(miners, owner, burn).value;
    var highest := TopShare(miners, owner, burn);
    WeightIsRounded(miners, owner, burn, uid);
    SharesAreExact(miners, owner, burn, uid);
    ErrorsAddUp(m, highest);
    EntriesAreUids(m, -1);
    AmountBounds(m, -1, uid);
    RoundedIsNearest(AmountOf(m, uid), highest);
    CrossError(AmountOf(m, uid), Total(m), AmountOf(Emit(m, highest), uid), Total(Emit(m, highest)), highest, |m|);
  }

  /** A sorted map has one entry for each of its UIDs. */
  lemma {:induction false} EntriesAreUids(m: seq<Entry>, low: int)
    requires Ascending(m, low)
    ensures |Uids(m)| == |m| && forall u :: u in Uids(m) ==> low < u
  {
    if m != [] { EntriesAreUids(m[1..], m[0].uid); }
  }

  // ----- the order of the records does not matter

  lemma {:induction false} ScoresIgnoreOrder(a: seq<MinerScore>, b: seq<MinerScore>, uid: int)
    requires multiset(a) == multiset(b)
    ensures ScoreOf(a, uid) == ScoreOf(b, uid) && TotalScore(a) == TotalScore(b)
  {
    if a == [] {
      assert |multiset(b)| == |b|;
    } else {
      var i := FindLast(a, b);
      ScoresIgnoreOrder(a[..|a| - 1], b[..i] + b[i + 1..], uid);
      RemoveOne(b, i, uid);
    }
  }

  lemma FindLast(a: seq<MinerScore>, b: seq<MinerScore>) returns (i: nat)
    requires multiset(a) == multiset(b) && a != []
    ensures i < |b| && b[i] == a[|a| - 1]
    ensures multiset(a[..|a| - 1]) == multiset(b[..i] + b[i + 1..])
  {
    var last := a[|a| - 1];
    MultisetWithout(a, |a| - 1);
    assert a[..|a| - 1] + a[|a|..] == a[..|a| - 1];
    assert last in multiset(b);
    i :| 0 <= i < |b| && b[i] == last;
    MultisetWithout(b, i);
  }

  lemma MultisetWithout(b: seq<MinerScore>, i: nat)
    requires i < |b|
    ensures multiset(b[..i] + b[i + 1..]) == multiset(b) - multiset{b[i]}
  {
    assert b == b[..i] + ([b[i]] + b[i + 1..]);
  }

  lemma {:induction false} RemoveOne(b: seq<MinerScore>, i: nat, uid: int)
    requires i < |b|
    ensures var rest := b[..i] + b[i + 1..];
            && TotalScore(b) == TotalScore(rest) + b[i].score
            && ScoreOf(b, uid) == ScoreOf(rest, uid) + if b[i].uid == uid then b[i].score else 0
  {
    var rest := b[..i] + b[i + 1..];
    if i == |b| - 1 {
      assert rest == b[..i];
    } else {
      var init := b[..|b| - 1];
      RemoveOne(init, i, uid);
      assert rest[..|rest| - 1] == init[..i] + init[i + 1..];
      assert rest[|rest| - 1] == b[|b| - 1];
    }
  }

  lemma ChainUidsIgnoreOrder(a: seq<MinerScore>, b: seq<MinerScore>)
    requires multiset(a) == multiset(b) && ChainUids(a)
    ensures ChainUids(b)
  {
    forall i | 0 <= i < |b| ensures b[i].uid <= U16_MAX {
      assert b[i] in multiset(b);
      assert b[i] in a;
    }
  }

  /** Reordering the records changes nothing that is submitted. */
  lemma WeightsIgnoreOrder(a: seq<MinerScore>, b: seq<MinerScore>, owner: u16, burn: Bps)
    requires multiset(a) == multiset(b) && Weights(a, owner, burn).Ok?
    ensures Weights(b, owner, burn) == Weights(a, owner, burn)
  {
    hide Rounded, ExactShare, Shares;
    ScoresIgnoreOrder(a, b, 0);
    if Shared(a, owner, burn) {
      SharesConserve(a, owner, burn);
      ChainUidsIgnoreOrder(a, b);
      SharesConserve(b, owner, burn);
      SameTop(a, b, owner, burn);
      var v, w := Weights(a, owner, burn).value, Weights(b, owner, burn).value;
      WeightsNormalise(a, owner, burn);
      WeightsNormalise(b, owner, burn);
      forall u: int ensures AmountOf(v, u) == AmountOf(w, u) {
        WeightIsRounded(a, owner, burn, u);
        WeightIsRounded(b, owner, burn, u);
        SharesIgnoreOrder(a, b, owner, burn, u);
      }
      SortedMapsAreEqual(v, w, -1);
    }
  }

  lemma SharesIgnoreOrder(a: seq<MinerScore>, b: seq<MinerScore>, owner: u16, burn: Bps, u: int)
    requires multiset(a) == multiset(b)
    ensures ExactShare(a, owner, burn, u) == ExactShare(b, owner, burn, u)
  {
    ScoresIgnoreOrder(a, b, u);
  }

  lemma SameTop(a: seq<MinerScore>, b: seq<MinerScore>, owner: u16, burn: Bps)
    requires multiset(a) == multiset(b) && Shared(a, owner, burn) && Shared(b, owner, burn)
    ensures TopShare(a, owner, burn) == TopShare(b, owner, burn)
  {
    hide ExactShare, Weights;
    var u := TopShareIsAttained(a, owner, burn, 0);
    var v := TopShareIsAttained(b, owner, burn, u);
    v := TopShareIsAttained(b, owner, burn, 0);
    var x := TopShareIsAttained(a, owner, burn, v);
    SharesIgnoreOrder(a, b, owner, burn, u);
    SharesIgnoreOrder(a, b, owner, burn, v);
  }

  // ----- no burn

  /** Records with distinct UIDs of the chain, the best of them scoring the maximum. */
  ghost predicate Scored(miners: seq<MinerScore>) {
    && (forall i, j :: 0 <= i < j < |miners| ==> miners[i].uid != miners[j].uid)
    && (forall i :: 0 <= i < |miners| ==> miners[i].uid <= U16_MAX && miners[i].score <= MAX_WEIGHT)
    && exists i :: 0 <= i < |miners| && miners[i].score == MAX_WEIGHT
  }

  lemma {:induction false} DistinctScores(miners: seq<MinerScore>, uid: int)
    requires forall i, j :: 0 <= i < j < |miners| ==> miners[i].uid != miners[j].uid
    ensures forall i :: 0 <= i < |miners| && miners[i].uid == uid ==> ScoreOf(miners, uid) == miners[i].score
    ensures (forall i :: 0 <= i < |miners| ==> miners[i].uid != uid) ==> ScoreOf(miners, uid) == 0
    ensures ScoreOf(miners, uid) <= TotalScore(miners)
    ensures (forall i :: 0 <= i < |miners| ==> miners[i].score <= MAX_WEIGHT) ==> ScoreOf(miners, uid) <= MAX_WEIGHT
  {
    if miners != [] { DistinctScores(miners[..|miners| - 1], uid); }
  }

  /** Without a burn the vector is exactly the positive scores, whoever the owner is. */
  lemma NoBurnIsTheScores(miners: seq<MinerScore>, owner: u16, uid: int)
    requires Scored(miners)
    ensures Weights(miners, owner, 0).Ok?
    ensures AmountOf(Weights(miners, owner, 0).value, uid) == ScoreOf(miners, uid)
    ensures forall i :: 0 <= i < |miners| && miners[i].uid == uid ==> ScoreOf(miners, uid) == miners[i].score
    ensures (forall i :: 0 <= i < |miners| ==> miners[i].uid != uid) ==> ScoreOf(miners, uid) == 0
  {
    hide Rounded, ExactShare, Weights, ScoreOf;
    NoBurnShared(miners, owner);
    NoBurnTop(miners, owner);
    NoBurnShare(miners, owner, uid);
    DistinctScores(miners, uid);
    WeightIsRounded(miners, owner, 0, uid);
    RoundedScore(ScoreOf(miners, uid));
  }

  lemma NoBurnShared(miners: seq<MinerScore>, owner: u16)
    requires Scored(miners)
    ensures Shared(miners, owner, 0)
  {
    SharesConserve(miners, owner, 0);
    var best :| 0 <= best < |miners| && miners[best].score == MAX_WEIGHT;
    DistinctScores(miners, miners[best].uid);
  }

  lemma NoBurnShare(miners: seq<MinerScore>, owner: u16, u: int)
    ensures ExactShare(miners, owner, 0, u) == ScoreOf(miners, u) * BPS
  {}

  lemma NoBurnTop(miners: seq<MinerScore>, owner: u16)
    requires Scored(miners) && Shared(miners, owner, 0)
    ensures TopShare(miners, owner, 0) == MAX_WEIGHT * BPS
  {
    hide ExactShare, Weights, ScoreOf;
    var best :| 0 <= best < |miners| && miners[best].score == MAX_WEIGHT;
    DistinctScores(miners, miners[best].uid);
    var top := TopShareIsAttained(miners, owner, 0, miners[best].uid);
    DistinctScores(miners, top);
    NoBurnShare(miners, owner, top);
    NoBurnShare(miners, owner, miners[best].uid);
  }

  lemma RoundedScore(score: nat)
    ensures Rounded(score * BPS, MAX_WEIGHT * BPS) == score
  {
    Multiple(score, MAX_WEIGHT * BPS / 2, MAX_WEIGHT * BPS);
  }

  lemma ShareWithinTotal(miners: seq<MinerScore>, owner: u16, burn: Bps, uid: int)
    requires forall i :: 0 <= i < |miners| ==> miners[i].score <= MAX_WEIGHT
    ensures ExactShare(miners, owner, burn, uid) <= TotalScore(miners) * BPS
  {
    hide ScoreOf, TotalScore;
    ScoreBounds(miners, uid);
    Scale(ScoreOf(miners, uid), TotalScore(miners), BPS - burn);
    SplitTotal(TotalScore(miners), burn);
  }

  /** Scores of at most 65535 keep every product within u128. */
  lemma ProductsFit(miners: seq<MinerScore>, owner: u16, burn: Bps, uid: int)
    requires |miners| <= U64_MAX && forall i :: 0 <= i < |miners| ==> miners[i].score <= MAX_WEIGHT
    ensures ExactShare(miners, owner, burn, uid) * MAX_WEIGHT + TotalScore(miners) * BPS <= U128_MAX
  {
    hide ExactShare;
    ScoreBounds(miners, uid);
    ShareWithinTotal(miners, owner, burn, uid);
  }

  lemma {:induction false} ScoreBounds(miners: seq<MinerScore>, uid: int)
    requires forall i :: 0 <= i < |miners| ==> miners[i].score <= MAX_WEIGHT
    ensures ScoreOf(miners, uid) <= TotalScore(miners) <= |miners| * MAX_WEIGHT
  {
    if miners != [] { ScoreBounds(miners[..|miners| - 1], uid); }
  }
}
