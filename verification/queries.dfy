/**
 * Read-only queries over the ledger: first record by uid, full history by
 * uid, record by index, and summary statistics. Uids are compared as strings.
 */
module Queries {
  import opened Wrappers
  import opened Chain

  /** A uid query is usable when the parameter is present and non-empty. */
  predicate UsableQuery(query: Option<string>) {
    query.Some? && query.value != ""
  }

  /** The lowest index at or after `from` whose record has the given uid. */
  function FirstIndex(l: Ledger, uid: string, from: nat): (r: Option<nat>)
    requires from <= |l|
    ensures r.Some? ==> from <= r.value < |l| && l[r.value].uid == uid
    ensures r.Some? ==> forall j :: from <= j < r.value ==> l[j].uid != uid
    ensures r.None? <==> forall j :: from <= j < |l| ==> l[j].uid != uid
    decreases |l| - from
  {
    if from == |l| then None
    else if l[from].uid == uid then Some(from)
    else FirstIndex(l, uid, from + 1)
  }

  /**
   * The first record with the queried uid: a validation error when the query
   * is absent or empty, not-found when no record carries that uid.
   */
  function GetRecord(l: Ledger, query: Option<string>): (r: Result<Record, Failure>)
    ensures !UsableQuery(query) <==> r == Failure(ValidationError(UidRequired))
    ensures r == Failure(NotFound)
        <==> UsableQuery(query) && forall i :: 0 <= i < |l| ==> l[i].uid != query.value
    ensures r.Success? <==> UsableQuery(query) && exists i :: 0 <= i < |l| && l[i].uid == query.value
    ensures r.Success? ==> exists i :: 0 <= i < |l| && r.value == l[i]
                                    && l[i].uid == query.value
                                    && forall j :: 0 <= j < i ==> l[j].uid != query.value
  {
    if !UsableQuery(query) then Failure(ValidationError(UidRequired))
    else
      match FirstIndex(l, query.value, 0)
      case Some(i) => Success(l[i])
      case None => Failure(NotFound)
  }

  /** The indices at or after `from` whose records carry the uid, in increasing order. */
  function MatchIndices(l: Ledger, uid: string, from: nat): (r: seq<nat>)
    requires from <= |l|
    ensures forall k :: 0 <= k < |r| ==> from <= r[k] < |l| && l[r[k]].uid == uid
    ensures forall k, m :: 0 <= k < m < |r| ==> r[k] < r[m]
    ensures forall j :: from <= j < |l| && l[j].uid == uid ==> j in r
    decreases |l| - from
  {
    if from == |l| then []
    else if l[from].uid == uid then [from] + MatchIndices(l, uid, from + 1)
    else MatchIndices(l, uid, from + 1)
  }

  /** The records with the given uid, in ledger order. */
  function History(l: Ledger, uid: string): seq<Record> {
    var idx := MatchIndices(l, uid, 0);
    seq(|idx|, k requires 0 <= k < |idx| => l[idx[k]])
  }

  /**
   * All records with the queried uid: a validation error when the query is
   * absent or empty, not-found when the history is empty, and otherwise
   * exactly the records at the matching indices, in increasing index order.
   */
  function GetHistory(l: Ledger, query: Option<string>): (r: Result<seq<Record>, Failure>)
    ensures !UsableQuery(query) <==> r == Failure(ValidationError(UidRequired))
    ensures r == Failure(NotFound)
        <==> UsableQuery(query) && forall i :: 0 <= i < |l| ==> l[i].uid != query.value
    ensures r.Success? <==> UsableQuery(query) && exists i :: 0 <= i < |l| && l[i].uid == query.value
    ensures r.Success? ==>
              var idx := MatchIndices(l, query.value, 0);
              && |r.value| == |idx| > 0
              && (forall k :: 0 <= k < |idx| ==> r.value[k] == l[idx[k]])
    ensures r.Success? ==> forall x :: x in r.value ==> x.uid == query.value
    ensures r.Success? ==> forall i :: 0 <= i < |l| && l[i].uid == query.value ==> l[i] in r.value
  {
    if !UsableQuery(query) then Failure(ValidationError(UidRequired))
    else
      var history := History(l, query.value);
      var idx := MatchIndices(l, query.value, 0);
      assert |idx| > 0 ==> l[idx[0]].uid == query.value;
      if |history| >= 1 then Success(history) else Failure(NotFound)
  }

  /** The record at position `index`, or not-found outside `[0, |l|)`. */
  function GetByIndex(l: Ledger, index: int): (r: Result<Record, Failure>)
    ensures r.Success? <==> 0 <= index < |l|
    ensures r.Success? ==> r.value == l[index]
    ensures r.Failure? ==> r.error == NotFound
  {
    if 0 <= index < |l| then Success(l[index]) else Failure(NotFound)
  }

  /** The set of uid strings occurring in the ledger. */
  function Uids(l: Ledger): (u: set<string>)
    ensures forall s :: s in u <==> exists i :: 0 <= i < |l| && l[i].uid == s
    ensures |u| <= |l|
  {
    if |l| == 0 then {}
    else
      var init := l[..|l| - 1];
      assert forall i :: 0 <= i < |init| ==> init[i] == l[i];
      Uids(init) + {l[|l| - 1].uid}
  }

  /** The statistics reported for the ledger. */
  datatype Stats = Stats(
    totalBlocks: nat,
    uniqueUids: nat,
    latestBlock: nat,
    genesisBlock: Option<Record>,
    latestBlockData: Option<Record>)

  /**
   * Summary statistics: both counters report the length, the distinct uid
   * count is the size of the set of uid strings, and the genesis and latest
   * records are the first and last elements when present.
   */
  function GetStats(l: Ledger): (s: Stats)
    ensures s.totalBlocks == |l| && s.latestBlock == |l|
    ensures s.uniqueUids == |Uids(l)|
    ensures s.uniqueUids <= s.totalBlocks
    ensures |l| > 0 <==> s.uniqueUids > 0
    ensures s.genesisBlock.Some? <==> |l| > 0
    ensures s.latestBlockData.Some? <==> |l| > 0
    ensures |l| > 0 ==> s.genesisBlock.value == l[0] && s.latestBlockData.value == l[|l| - 1]
  {
    var uids := Uids(l);
    assert |l| > 0 ==> l[0].uid in uids;
    Stats(
      |l|,
      |uids|,
      |l|,
      if |l| > 0 then Some(l[0]) else None,
      if |l| > 0 then Some(l[|l| - 1]) else None)
  }

  lemma {:induction false} FirstIndexIsFirstMatch(l: Ledger, uid: string, from: nat)
    requires from <= |l|
    ensures FirstIndex(l, uid, from).None? <==> |MatchIndices(l, uid, from)| == 0
    ensures FirstIndex(l, uid, from).Some? ==> FirstIndex(l, uid, from).value == MatchIndices(l, uid, from)[0]
    decreases |l| - from
  {
    if from < |l| && l[from].uid != uid {
      FirstIndexIsFirstMatch(l, uid, from + 1);
    }
  }

  /**
   * The first-record lookup and the history lookup agree: both refuse the same
   * queries with the same error, and when they succeed the first record is the
   * head of the history.
   */
  lemma RecordIsHistoryHead(l: Ledger, query: Option<string>)
    ensures GetRecord(l, query).Success? <==> GetHistory(l, query).Success?
    ensures GetRecord(l, query).Failure? ==> GetRecord(l, query).error == GetHistory(l, query).error
    ensures GetRecord(l, query).Success? ==> GetRecord(l, query).value == GetHistory(l, query).value[0]
  {
    if UsableQuery(query) {
      FirstIndexIsFirstMatch(l, query.value, 0);
    }
  }

  lemma {:induction false} MatchIndicesAppend(l: Ledger, x: Record, uid: string, from: nat)
    requires from <= |l|
    ensures MatchIndices(l + [x], uid, from)
         == MatchIndices(l, uid, from) + (if x.uid == uid then [|l|] else [])
    decreases |l| - from
  {
    var l' := l + [x];
    if from == |l| {
      assert MatchIndices(l', uid, from + 1) == [];
    } else {
      assert l'[from] == l[from];
      MatchIndicesAppend(l, x, uid, from + 1);
    }
  }

  /**
   * Appending never disturbs the history of any uid: the history after an
   * append is the old history, extended by the new record when it carries
   * that uid.
   */
  lemma AppendExtendsHistory(h: Hasher, l: Ledger, timestamp: string, name: string, uid: string,
                             age: string, land: string, query: string)
    ensures History(Append(h, l, timestamp, name, uid, age, land), query)
         == History(l, query)
          + (if uid == query then [NewRecord(h, l, timestamp, name, uid, age, land)] else [])
  {
    var x := NewRecord(h, l, timestamp, name, uid, age, land);
    MatchIndicesAppend(l, x, query, 0);
  }

  lemma {:induction false} FirstIndexAppend(l: Ledger, x: Record, uid: string, from: nat)
    requires from <= |l|
    ensures FirstIndex(l + [x], uid, from)
         == if FirstIndex(l, uid, from).Some? then FirstIndex(l, uid, from)
            else if x.uid == uid then Some(|l|) else None
    decreases |l| - from
  {
    var l' := l + [x];
    if from == |l| {
      assert FirstIndex(l', uid, from + 1) == None;
    } else {
      assert l'[from] == l[from];
      FirstIndexAppend(l, x, uid, from + 1);
    }
  }

  /**
   * Once a uid has a first record, appending never changes it; a uid without
   * one gets the appended record as its first when the uids match.
   */
  lemma AppendKeepsFirstRecord(h: Hasher, l: Ledger, timestamp: string, name: string, uid: string,
                               age: string, land: string, query: Option<string>)
    ensures GetRecord(l, query).Success? ==>
              GetRecord(Append(h, l, timestamp, name, uid, age, land), query) == GetRecord(l, query)
    ensures GetRecord(l, query) == Failure(NotFound) && uid == query.value ==>
              GetRecord(Append(h, l, timestamp, name, uid, age, land), query)
                == Success(NewRecord(h, l, timestamp, name, uid, age, land))
  {
    if UsableQuery(query) {
      FirstIndexAppend(l, NewRecord(h, l, timestamp, name, uid, age, land), query.value, 0);
    }
  }

  /**
   * After an append the new record is reachable at index `|l|`, the position
   * the system reports back, and every earlier index yields what it did before.
   */
  lemma AppendIndexLookup(h: Hasher, l: Ledger, timestamp: string, name: string, uid: string,
                          age: string, land: string, index: int)
    ensures GetByIndex(Append(h, l, timestamp, name, uid, age, land), index)
         == if index == |l| then Success(NewRecord(h, l, timestamp, name, uid, age, land))
            else GetByIndex(l, index)
  {
  }

  lemma UidsAppend(l: Ledger, x: Record)
    ensures |Uids(l + [x])| == |Uids(l)| + (if x.uid in Uids(l) then 0 else 1)
  {
    var l' := l + [x];
    assert l'[..|l'| - 1] == l;
    var before := Uids(l);
    assert Uids(l') == before + {x.uid};
    if x.uid in before {
      assert before + {x.uid} == before;
    }
  }

  /**
   * Statistics after an append: one more block, one more distinct uid exactly
   * when the new uid was not yet present, the genesis record unchanged unless
   * the ledger was empty, and the new record as the latest.
   */
  lemma AppendStats(h: Hasher, l: Ledger, timestamp: string, name: string, uid: string,
                    age: string, land: string)
    ensures GetStats(Append(h, l, timestamp, name, uid, age, land)).totalBlocks == GetStats(l).totalBlocks + 1
    ensures GetStats(Append(h, l, timestamp, name, uid, age, land)).uniqueUids
         == GetStats(l).uniqueUids + (if uid in Uids(l) then 0 else 1)
    ensures |l| > 0 ==> GetStats(Append(h, l, timestamp, name, uid, age, land)).genesisBlock == GetStats(l).genesisBlock
    ensures GetStats(Append(h, l, timestamp, name, uid, age, land)).latestBlockData
         == Some(NewRecord(h, l, timestamp, name, uid, age, land))
  {
    UidsAppend(l, NewRecord(h, l, timestamp, name, uid, age, land));
  }
}
