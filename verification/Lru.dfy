/** Least-recently-used orders: lists of the slots 0 to n - 1, each once. */
module Lru {

  /** Every slot is on the list; being n long, the list holds each exactly once. */
  ghost predicate IsOrder(lru: seq<nat>, n: nat) {
    && |lru| == n
    && (forall k :: 0 <= k < |lru| ==> lru[k] < n)
    && (forall i: nat :: i < n ==> i in lru)
  }

  function IndexOf(s: seq<nat>, x: nat): (k: nat)
    requires x in s
    ensures k < |s| && s[k] == x
  {
    if s[0] == x then 0 else 1 + IndexOf(s[1..], x)
  }

  function MoveToFront(lru: seq<nat>, k: nat): (r: seq<nat>)
    requires k < |lru|
  {
    [lru[k]] + lru[..k] + lru[k + 1..]
  }

  function MoveToBack(lru: seq<nat>, k: nat): (r: seq<nat>)
    requires k < |lru|
  {
    lru[..k] + lru[k + 1..] + [lru[k]]
  }

  lemma MoveToFrontOk(lru: seq<nat>, n: nat, k: nat)
    requires IsOrder(lru, n) && k < |lru|
    ensures IsOrder(MoveToFront(lru, k), n)
  {
    var r := MoveToFront(lru, k);
    forall i: nat | i < n ensures i in r {
      var j := IndexOf(lru, i);
      if j < k { assert r[j + 1] == i; } else if j == k { assert r[0] == i; } else { assert r[j] == i; }
    }
  }

  lemma MoveToBackOk(lru: seq<nat>, n: nat, k: nat)
    requires IsOrder(lru, n) && k < |lru|
    ensures IsOrder(MoveToBack(lru, k), n)
  {
    var r := MoveToBack(lru, k);
    forall i: nat | i < n ensures i in r {
      var j := IndexOf(lru, i);
      if j < k { assert r[j] == i; } else if j == k { assert r[n - 1] == i; } else { assert r[j - 1] == i; }
    }
  }
}
