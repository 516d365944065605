/** The ascending order in which a BTreeMap or BTreeSet of signals is visited. */
module Orders {

  ghost predicate Ascending(s: seq<nat>) {
    forall i, j :: 0 <= i < j < |s| ==> s[i] < s[j]
  }

  predicate IsLeast(k: nat, ks: set<nat>) {
    k in ks && forall j :: j in ks ==> k <= j
  }

  lemma {:induction false} FindLeast(ks: set<nat>) returns (least: nat)
    requires ks != {}
    ensures IsLeast(least, ks)
    decreases |ks|
  {
    least :| least in ks;
    var rest := ks - {least};
    assert forall j :: j in ks ==> j == least || j in rest;
    if rest != {} {
      var r := FindLeast(rest);
      least := if least < r then least else r;
    }
  }

  lemma LeastExistsOnce(ks: set<nat>)
    requires ks != {}
    ensures exists k :: IsLeast(k, ks)
    ensures forall i, j :: IsLeast(i, ks) && IsLeast(j, ks) ==> i == j
  {
    var k := FindLeast(ks);
  }

  function Least(ks: set<nat>): (k: nat)
    requires ks != {}
    ensures IsLeast(k, ks)
  {
    LeastExistsOnce(ks);
    var k :| k in ks && IsLeast(k, ks);
    k
  }

  /** The keys in ascending order. */
  function SortedKeys(ks: set<nat>): (s: seq<nat>)
    ensures forall k :: k in ks <==> k in s
    ensures Ascending(s)
  {
    if ks == {} then []
    else
      var k := Least(ks);
      var rest := SortedKeys(ks - {k});
      SortedStep(ks, k, rest);
      [k] + rest
  }

  lemma SortedStep(ks: set<nat>, k: nat, rest: seq<nat>)
    requires IsLeast(k, ks) && Ascending(rest)
    requires forall j :: j in ks - {k} <==> j in rest
    ensures forall j :: j in ks <==> j in [k] + rest
    ensures Ascending([k] + rest)
  {
    var s := [k] + rest;
    forall j | 0 < j < |s|
      ensures s[0] < s[j]
    {
      assert s[j] in rest;
    }
  }

  /** A list that holds every element of a set has at least as many entries. */
  lemma {:induction false} CoveringLength(s: seq<nat>, ks: set<nat>)
    requires forall k :: k in ks ==> k in s
    ensures |ks| <= |s|
  {
    if |s| == 0 {
      assert ks == {};
    } else {
      var last := |s| - 1;
      forall k | k in ks - {s[last]}
        ensures k in s[..last]
      {
        var i :| 0 <= i < |s| && s[i] == k;
        assert s[..last][i] == k;
      }
      CoveringLength(s[..last], ks - {s[last]});
      assert |ks| <= |ks - {s[last]}| + 1;
    }
  }

  lemma {:induction false} AscendingLength(s: seq<nat>, ks: set<nat>)
    requires Ascending(s) && forall k :: k in s ==> k in ks
    ensures |s| <= |ks|
  {
    if |s| > 0 {
      var last := |s| - 1;
      forall k | k in s[..last]
        ensures k in ks - {s[last]}
      {
        assert k in s;
      }
      AscendingLength(s[..last], ks - {s[last]});
      assert s[last] in s;
    }
  }

  lemma PrefixStep<T>(s: seq<T>, i: nat)
    requires i < |s|
    ensures s[..i + 1] == s[..i] + [s[i]]
  {}

  lemma PrefixAll<T>(s: seq<T>)
    ensures s[..|s|] == s
  {}
}
