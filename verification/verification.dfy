/**
 * Integrity verification: a full scan of the ledger that reports, for every
 * record, a hash mismatch, a broken link to its predecessor, or an invalid
 * genesis link, without stopping at the first issue.
 */
module Verification {
  import opened Chain

  datatype IssueKind = HashMismatch | BrokenLinkage | InvalidGenesis

  /** One reported issue: where it is, what it is, and the uid of the record concerned. */
  datatype Issue = Issue(blockIndex: nat, kind: IssueKind, uid: string)

  /** The result of a scan: the validity flag, the number of records scanned, the issues. */
  datatype Report = Report(isValid: bool, totalBlocks: nat, details: seq<Issue>)

  /** The order in which the three checks run on one record. */
  function Rank(k: IssueKind): nat {
    match k
    case HashMismatch => 0
    case BrokenLinkage => 1
    case InvalidGenesis => 2
  }

  /** `a` is reported before `b`: a lower index, or the same index and an earlier check. */
  predicate Precedes(a: Issue, b: Issue) {
    a.blockIndex < b.blockIndex || (a.blockIndex == b.blockIndex && Rank(a.kind) < Rank(b.kind))
  }

  /** Issues in strictly increasing (index, check) order; in particular without repeats. */
  predicate Ordered(d: seq<Issue>) {
    forall a, b :: 0 <= a < b < |d| ==> Precedes(d[a], d[b])
  }

  /** Whether check `k` fails on record `i`, stated directly on the ledger. */
  predicate Fails(h: Hasher, l: Ledger, i: nat, k: IssueKind)
    requires i < |l|
  {
    match k
    case HashMismatch => CalculateHash(h, l[i]) != l[i].hash
    case BrokenLinkage => i > 0 && l[i].previousHash != l[i - 1].hash
    case InvalidGenesis => i == 0 && l[i].previousHash != ZeroHash()
  }

  /** `x` describes a real defect of the ledger, tagged with the right uid. */
  predicate Genuine(h: Hasher, l: Ledger, x: Issue) {
    x.blockIndex < |l| && x.uid == l[x.blockIndex].uid && Fails(h, l, x.blockIndex, x.kind)
  }

  /** The issues found on record `i`, in the order the checks run. */
  function IssuesAt(h: Hasher, l: Ledger, i: nat): seq<Issue>
    requires i < |l|
  {
    var r := l[i];
    (if CalculateHash(h, r) != r.hash then [Issue(i, HashMismatch, r.uid)] else [])
    + (if i > 0 && r.previousHash != l[i - 1].hash then [Issue(i, BrokenLinkage, r.uid)] else [])
    + (if i == 0 && r.previousHash != ZeroHash() then [Issue(i, InvalidGenesis, r.uid)] else [])
  }

  /** The issues on one record are genuine defects of that record. */
  lemma IssuesAtSound(h: Hasher, l: Ledger, i: nat)
    requires i < |l|
    ensures forall x :: x in IssuesAt(h, l, i) ==> x.blockIndex == i && Genuine(h, l, x)
  {
  }

  /** Every failing check of a record is among its issues. */
  lemma IssuesAtComplete(h: Hasher, l: Ledger, i: nat)
    requires i < |l|
    ensures forall k :: Fails(h, l, i, k) ==> Issue(i, k, l[i].uid) in IssuesAt(h, l, i)
  {
  }

  /** The issues on one record all carry its index and come in check order. */
  lemma IssuesAtOrdered(h: Hasher, l: Ledger, i: nat)
    requires i < |l|
    ensures forall x :: x in IssuesAt(h, l, i) ==> x.blockIndex == i
    ensures Ordered(IssuesAt(h, l, i))
  {
  }

  /** Concatenating two ordered runs, the first wholly before the second, stays ordered. */
  lemma OrderedConcat(a: seq<Issue>, b: seq<Issue>, n: nat)
    requires Ordered(a) && Ordered(b)
    requires forall x :: x in a ==> x.blockIndex < n
    requires forall x :: x in b ==> x.blockIndex == n
    ensures Ordered(a + b)
  {
    var c := a + b;
    forall p, q | 0 <= p < q < |c|
      ensures Precedes(c[p], c[q])
    {
      if q < |a| {
        assert Precedes(a[p], a[q]);
      } else if p >= |a| {
        assert Precedes(b[p - |a|], b[q - |a|]);
      } else {
        assert c[p] == a[p] && a[p] in a;
        assert c[q] == b[q - |a|] && b[q - |a|] in b;
      }
    }
  }

  /** The issues found on records 0 .. n-1, scanning in index order. */
  function IssuesUpTo(h: Hasher, l: Ledger, n: nat): seq<Issue>
    requires n <= |l|
  {
    if n == 0 then [] else IssuesUpTo(h, l, n - 1) + IssuesAt(h, l, n - 1)
  }

  /** Scanning records 0 .. n-1 reports only genuine defects of those records. */
  lemma {:induction false} IssuesUpToSound(h: Hasher, l: Ledger, n: nat)
    requires n <= |l|
    ensures forall x :: x in IssuesUpTo(h, l, n) ==> x.blockIndex < n && Genuine(h, l, x)
  {
    if n > 0 {
      var prefix := IssuesUpTo(h, l, n - 1);
      var here := IssuesAt(h, l, n - 1);
      forall x: Issue | x in prefix + here
        ensures x.blockIndex < n && Genuine(h, l, x)
      {
        if x in prefix {
          IssuesUpToSound(h, l, n - 1);
        } else {
          IssuesAtSound(h, l, n - 1);
        }
      }
    }
  }

  /** Scanning records 0 .. n-1 reports every failing check of those records. */
  lemma {:induction false} IssuesUpToComplete(h: Hasher, l: Ledger, n: nat)
    requires n <= |l|
    ensures forall i, k :: 0 <= i < n && Fails(h, l, i, k) ==> Issue(i, k, l[i].uid) in IssuesUpTo(h, l, n)
  {
    if n > 0 {
      var prefix := IssuesUpTo(h, l, n - 1);
      var here := IssuesAt(h, l, n - 1);
      forall i, k | 0 <= i < n && Fails(h, l, i, k)
        ensures Issue(i, k, l[i].uid) in prefix + here
      {
        if i < n - 1 {
          IssuesUpToComplete(h, l, n - 1);
          assert Issue(i, k, l[i].uid) in prefix;
        } else {
          IssuesAtComplete(h, l, i);
          assert Issue(i, k, l[i].uid) in here;
        }
      }
    }
  }

  /** Scanning records 0 .. n-1 reports issues below index n, in (index, check) order. */
  lemma {:induction false} IssuesUpToOrdered(h: Hasher, l: Ledger, n: nat)
    requires n <= |l|
    ensures forall x :: x in IssuesUpTo(h, l, n) ==> x.blockIndex < n
    ensures Ordered(IssuesUpTo(h, l, n))
  {
    if n > 0 {
      IssuesUpToOrdered(h, l, n - 1);
      IssuesAtOrdered(h, l, n - 1);
      OrderedConcat(IssuesUpTo(h, l, n - 1), IssuesAt(h, l, n - 1), n - 1);
    }
  }

  /**
   * Verify the whole ledger. The report is valid exactly when no issue was
   * found, counts every record, lists issues in (index, check) order, and
   * lists exactly the genuine defects of the ledger.
   */
  function Verify(h: Hasher, l: Ledger): (rep: Report)
    ensures rep.isValid <==> |rep.details| == 0
    ensures rep.totalBlocks == |l|
    ensures Ordered(rep.details)
    ensures forall x :: x in rep.details <==> Genuine(h, l, x)
    ensures forall x :: x in rep.details && x.kind == BrokenLinkage ==> x.blockIndex > 0
    ensures forall x :: x in rep.details && x.kind == InvalidGenesis ==> x.blockIndex == 0
  {
    var d := IssuesUpTo(h, l, |l|);
    IssuesUpToSound(h, l, |l|);
    IssuesUpToComplete(h, l, |l|);
    IssuesUpToOrdered(h, l, |l|);
    assert forall x :: Genuine(h, l, x) ==> Issue(x.blockIndex, x.kind, l[x.blockIndex].uid) in d;
    Report(|d| == 0, |l|, d)
  }

  /**
   * The scan as the system performs it: a loop over the indices that keeps a
   * separate validity flag and appends issues as they are found.
   */
  method VerifyChain(h: Hasher, l: Ledger) returns (rep: Report)
    ensures rep == Verify(h, l)
  {
    var results: seq<Issue> := [];
    var isValid := true;
    var i := 0;
    while i < |l|
      invariant i <= |l|
      invariant results == IssuesUpTo(h, l, i)
      invariant isValid <==> |results| == 0
    {
      var current := l[i];
      var before := results;
      if CalculateHash(h, current) != current.hash {
        isValid := false;
        results := results + [Issue(i, HashMismatch, current.uid)];
      }
      if i > 0 {
        var previous := l[i - 1];
        if current.previousHash != previous.hash {
          isValid := false;
          results := results + [Issue(i, BrokenLinkage, current.uid)];
        }
      }
      if i == 0 && current.previousHash != ZeroHash() {
        isValid := false;
        results := results + [Issue(i, InvalidGenesis, current.uid)];
      }
      assert results == before + IssuesAt(h, l, i);
      i := i + 1;
    }
    rep := Report(isValid, |l|, results);
  }

  /** On a ledger satisfying the chain invariants, no prefix of the scan finds an issue. */
  lemma {:induction false} ValidChainScansEmpty(h: Hasher, l: Ledger, n: nat)
    requires ValidChain(h, l)
    requires n <= |l|
    ensures IssuesUpTo(h, l, n) == []
  {
    if n > 0 {
      ValidChainScansEmpty(h, l, n - 1);
      assert IssuesAt(h, l, n - 1) == [];
    }
  }

  /** A ledger verifies clean exactly when it satisfies the chain invariants. */
  lemma ValidIffChainInvariants(h: Hasher, l: Ledger)
    ensures Verify(h, l).isValid <==> ValidChain(h, l)
  {
    var rep := Verify(h, l);
    if ValidChain(h, l) {
      ValidChainScansEmpty(h, l, |l|);
    } else {
      if !(forall i :: 0 <= i < |l| ==> CalculateHash(h, l[i]) == l[i].hash) {
        var i :| 0 <= i < |l| && CalculateHash(h, l[i]) != l[i].hash;
        assert Genuine(h, l, Issue(i, HashMismatch, l[i].uid));
      } else if !(forall i :: 0 < i < |l| ==> l[i].previousHash == l[i - 1].hash) {
        var i :| 0 < i < |l| && l[i].previousHash != l[i - 1].hash;
        assert Genuine(h, l, Issue(i, BrokenLinkage, l[i].uid));
      } else {
        assert Genuine(h, l, Issue(0, InvalidGenesis, l[0].uid));
      }
    }
  }

  /** A ledger satisfying the chain invariants yields a clean report over all its records. */
  lemma ValidChainVerifiesClean(h: Hasher, l: Ledger)
    requires ValidChain(h, l)
    ensures Verify(h, l) == Report(true, |l|, [])
  {
    ValidIffChainInvariants(h, l);
  }

  /** The issues a scan of `l[k := r']` finds on records 0 .. n-1, for a valid `l`. */
  function ReplacementIssues(h: Hasher, l: Ledger, k: nat, r': Record, n: nat): seq<Issue>
    requires k < |l| && n <= |l|
  {
    (if k < n && CalculateHash(h, r') != r'.hash then [Issue(k, HashMismatch, r'.uid)] else [])
    + (if k + 1 < n && r'.hash != l[k].hash then [Issue(k + 1, BrokenLinkage, l[k + 1].uid)] else [])
  }

  /** The issues a scan of `l[k := r']` finds on record i, for a valid `l`. */
  function ReplacementIssuesOn(h: Hasher, l: Ledger, k: nat, r': Record, i: nat): seq<Issue>
    requires k < |l|
  {
    if i == k then (if CalculateHash(h, r') != r'.hash then [Issue(k, HashMismatch, r'.uid)] else [])
    else if i == k + 1 < |l| then (if r'.hash != l[k].hash then [Issue(k + 1, BrokenLinkage, l[k + 1].uid)] else [])
    else []
  }

  /** Only records k and k+1 of `l[k := r']` can have issues. */
  lemma ReplacementIssuesAt(h: Hasher, l: Ledger, k: nat, r': Record, i: nat)
    requires ValidChain(h, l)
    requires k < |l| && i < |l|
    requires r'.previousHash == l[k].previousHash
    ensures IssuesAt(h, l[k := r'], i) == ReplacementIssuesOn(h, l, k, r', i)
  {
    var l' := l[k := r'];
    if i == k {
      assert i > 0 ==> l'[i - 1] == l[i - 1];
    } else if i == k + 1 {
      assert l'[i] == l[i];
    } else {
      assert l'[i] == l[i];
      assert i > 0 ==> l'[i - 1] == l[i - 1];
    }
  }

  lemma ReplacementIssuesStep(h: Hasher, l: Ledger, k: nat, r': Record, n: nat)
    requires k < |l| && 0 < n <= |l|
    ensures ReplacementIssues(h, l, k, r', n)
         == ReplacementIssues(h, l, k, r', n - 1) + ReplacementIssuesOn(h, l, k, r', n - 1)
  {
    if n - 1 == k {
      assert ReplacementIssues(h, l, k, r', n - 1) == [];
    } else if n - 1 == k + 1 {
      assert ReplacementIssues(h, l, k, r', n - 1) == ReplacementIssues(h, l, k, r', k + 1);
    } else {
      assert ReplacementIssues(h, l, k, r', n) == ReplacementIssues(h, l, k, r', n - 1);
    }
  }

  lemma {:induction false} ReplacementIssuesUpTo(h: Hasher, l: Ledger, k: nat, r': Record, n: nat)
    requires ValidChain(h, l)
    requires k < |l| && n <= |l|
    requires r'.previousHash == l[k].previousHash
    ensures IssuesUpTo(h, l[k := r'], n) == ReplacementIssues(h, l, k, r', n)
  {
    if n > 0 {
      ReplacementIssuesUpTo(h, l, k, r', n - 1);
      ReplacementIssuesAt(h, l, k, r', n - 1);
      ReplacementIssuesStep(h, l, k, r', n);
    }
  }

  /**
   * Replace record k of a valid ledger by `r'` that keeps the link field. The
   * scan reports a hash mismatch at k when `r'` disagrees with its own digest,
   * and a broken link at k+1 when `r'`'s stored hash is not the one its
   * successor links to; and nothing else.
   */
  lemma ReplacementReport(h: Hasher, l: Ledger, k: nat, r': Record)
    requires ValidChain(h, l)
    requires k < |l|
    requires r'.previousHash == l[k].previousHash
    ensures Verify(h, l[k := r']).details
         == (if CalculateHash(h, r') != r'.hash then [Issue(k, HashMismatch, r'.uid)] else [])
          + (if k + 1 < |l| && r'.hash != l[k + 1].previousHash
             then [Issue(k + 1, BrokenLinkage, l[k + 1].uid)] else [])
  {
    ReplacementIssuesUpTo(h, l, k, r', |l|);
  }

  /**
   * Overwriting the stored hash of record k of a valid ledger with any other
   * value is reported as a hash mismatch at k and, when record k+1 exists, as
   * a broken link at k+1, and the report is invalid.
   */
  lemma TamperedHashDetected(h: Hasher, l: Ledger, k: nat, v: string)
    requires ValidChain(h, l)
    requires k < |l|
    requires v != l[k].hash
    ensures Verify(h, l[k := l[k].(hash := v)])
         == Report(false, |l|, [Issue(k, HashMismatch, l[k].uid)]
                              + (if k + 1 < |l| then [Issue(k + 1, BrokenLinkage, l[k + 1].uid)] else []))
  {
    ReplacementReport(h, l, k, l[k].(hash := v));
  }

  /**
   * Editing the content fields of record k while keeping its stored hashes is
   * reported as exactly one hash mismatch at k, unless the digest of the
   * edited fields happens to equal the stored one.
   */
  lemma TamperedFieldsDetected(h: Hasher, l: Ledger, k: nat, r': Record)
    requires ValidChain(h, l)
    requires k < |l|
    requires r'.previousHash == l[k].previousHash && r'.hash == l[k].hash
    requires CalculateHash(h, r') != l[k].hash
    ensures Verify(h, l[k := r']) == Report(false, |l|, [Issue(k, HashMismatch, r'.uid)])
  {
    ReplacementReport(h, l, k, r');
  }

  /**
   * Because the hash input has no separators, moving characters between the
   * name and the uid of a record leaves its digest unchanged: such an edit
   * of a valid ledger verifies clean.
   */
  lemma BoundaryShiftUndetected(h: Hasher, l: Ledger, k: nat, name: string, uid: string)
    requires ValidChain(h, l)
    requires k < |l|
    requires name + uid == l[k].name + l[k].uid
    ensures Verify(h, l[k := l[k].(name := name, uid := uid)]) == Report(true, |l|, [])
  {
    var r := l[k];
    var r' := r.(name := name, uid := uid);
    assert HashInput(r') == HashInput(r) by {
      assert r.timestamp + name + uid == r.timestamp + (name + uid);
      assert r.timestamp + r.name + r.uid == r.timestamp + (r.name + r.uid);
    }
    ReplacementReport(h, l, k, r');
  }
}
