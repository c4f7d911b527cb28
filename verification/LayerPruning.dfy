/** Deleting a layer: every listed version but the newest is removed first, oldest first. */
module LayerPruning {

  class Server {
    var versions: set<int>

    /** Deleting a version that is already gone is not an error; any call may fail. */
    method DeleteVersion(v: int) returns (ok: bool)
      modifies this
      ensures versions == if ok then old(versions) - {v} else old(versions)
    {
      ok := *;
      if ok {
        versions := versions - {v};
      }
    }
  }

  ghost predicate Ascending(vs: seq<int>) {
    forall i, j :: 0 <= i < j < |vs| ==> vs[i] <= vs[j]
  }

  /** The position of the least element from `from` on. */
  method LeastFrom(a: array<int>, from: nat) returns (least: nat)
    requires from < a.Length
    ensures from <= least < a.Length
    ensures forall k :: from <= k < a.Length ==> a[least] <= a[k]
  {
    least := from;
    for i := from + 1 to a.Length
      invariant from <= least < a.Length
      invariant forall k :: from <= k < i ==> a[least] <= a[k]
    {
      if a[i] < a[least] {
        least := i;
      }
    }
  }

  /** The library sort, in place. */
  method Sort(a: array<int>)
    modifies a
    ensures Ascending(a[..])
    ensures multiset(a[..]) == multiset(old(a[..]))
  {
    for i := 0 to a.Length
      invariant forall j, k :: 0 <= j < k < a.Length && j < i ==> a[j] <= a[k]
      invariant multiset(a[..]) == multiset(old(a[..]))
    {
      var m := LeastFrom(a, i);
      a[i], a[m] := a[m], a[i];
    }
  }

  ghost function Elements(vs: seq<int>): set<int> {
    set v | v in vs
  }

  /** The versions left once the first `k` of the sorted list are deleted. */
  ghost function Left(s: set<int>, sorted: seq<int>, k: nat): set<int>
    requires k <= |sorted|
  {
    s - Elements(sorted[..k])
  }

  /** Sorts the list in place and deletes in order, stopping at the first call that fails. */
  method CustomPreDelete(server: Server, listed: array<int>) returns (ok: bool, deleted: nat)
    modifies server, listed
    ensures Ascending(listed[..]) && multiset(listed[..]) == multiset(old(listed[..]))
    ensures deleted <= listed.Length && (listed.Length > 0 ==> deleted < listed.Length)
    ensures server.versions == Left(old(server.versions), listed[..], deleted)
    ensures ok <==> deleted == listed.Length - 1 || listed.Length == 0
  {
    Sort(listed);
    ghost var sorted := listed[..];
    deleted := 0;
    assert Elements(sorted[..0]) == {};
    while deleted < listed.Length - 1
      invariant deleted <= listed.Length && (listed.Length > 0 ==> deleted < listed.Length)
      invariant server.versions == Left(old(server.versions), sorted, deleted)
      invariant listed[..] == sorted
    {
      ok := server.DeleteVersion(listed[deleted]);
      if !ok {
        return;
      }
      assert sorted[..deleted + 1] == sorted[..deleted] + [sorted[deleted]];
      assert Elements(sorted[..deleted + 1]) == Elements(sorted[..deleted]) + {sorted[deleted]};
      deleted := deleted + 1;
    }
    ok := true;
  }

  /**
    At every point of the deletion, what is left of the listed versions is exactly those newer than
    the last one deleted, and unlisted versions are all still there.
   */
  lemma NewestAreKept(s: set<int>, sorted: seq<int>, k: nat)
    requires Ascending(sorted) && k <= |sorted| && Elements(sorted) <= s
    ensures forall v :: v in sorted ==> (v in Left(s, sorted, k) <==> k == 0 || v > sorted[k - 1])
    ensures forall v :: v in s && v !in sorted ==> v in Left(s, sorted, k)
  {
  }

  /** When it is left as a suffix: the rest of the sorted list, exactly if no deleted version occurs again in it. */
  lemma SuffixLeft(s: set<int>, sorted: seq<int>, k: nat)
    requires Ascending(sorted) && k < |sorted| && Elements(sorted) <= s
    ensures Left(s, sorted, k) * Elements(sorted) == Elements(sorted[k..]) <==> k == 0 || sorted[k - 1] < sorted[k]
  {
    NewestAreKept(s, sorted, k);
    var left, rest := Left(s, sorted, k) * Elements(sorted), Elements(sorted[k..]);
    assert sorted[k..][0] == sorted[k] && sorted[k] in sorted[k..];
    if k == 0 {
      assert sorted[k..] == sorted;
    } else if sorted[k - 1] < sorted[k] {
      forall v ensures v in left <==> v in rest {
        if v in rest {
          var j :| 0 <= j < |sorted[k..]| && sorted[k..][j] == v;
          assert sorted[k + j] == v;
        }
        if v in left {
          var j :| 0 <= j < |sorted| && sorted[j] == v;
          assert sorted[k..][j - k] == v;
        }
      }
    } else {
      assert sorted[k - 1] <= sorted[k];
      assert sorted[k] !in left;
    }
  }

  /**
    A full run leaves exactly the newest listed version, provided it is listed once; listed twice, it
    is deleted with the rest.
   */
  lemma FullRunLeavesNewest(s: set<int>, sorted: seq<int>)
    requires Ascending(sorted) && |sorted| > 0 && Elements(sorted) <= s
    ensures var n := |sorted| - 1;
            && (Left(s, sorted, n) * Elements(sorted) == {sorted[n]} <==> n == 0 || sorted[n - 1] != sorted[n])
            && (forall v :: v in sorted ==> v <= sorted[n])
  {
  }
}
