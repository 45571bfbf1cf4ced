/**
 * The per-class tally of detector labels and the per-camera result record
 * (main.py:14-20, main.py:59-77, main.py:89-91).
 */
module Detection {
  import opened Config

  /** One entry of a count map: a real count, or the sentinel `"X"`. */
  datatype Count = Num(n: int) | Unknown

  /** `{"name": ..., "count": {...}, "timestamp": ...}`. */
  datatype DetectionResult = DetectionResult(name: string, count: map<string, Count>, timestamp: int)

  const TargetClassSet: set<string> := set c | c in TargetClasses

  /** What the count for each class is meant to be: how many labels equal its id. */
  function Tally(labels: seq<int>): (count: map<string, int>)
  {
    map c | c in TargetClasses :: multiset(labels)[IdOf(c)]
  }

  /**
   * The inner loop of the counter: one label is compared with every
   * (class, id) pair, in the dictionary's order, and bumps the class it equals.
   */
  method Bump(count: map<string, int>, boxLabel: int) returns (count': map<string, int>)
    requires count.Keys == TargetClassSet
    ensures count'.Keys == TargetClassSet
    ensures forall c :: c in TargetClasses ==> count'[c] == count[c] + if boxLabel == IdOf(c) then 1 else 0
  {
    count' := count;
    for j := 0 to |ClassNameToId|
      invariant count'.Keys == TargetClassSet
      invariant forall k :: 0 <= k < j ==>
        count'[ClassNameToId[k].0] == count[ClassNameToId[k].0] + if boxLabel == ClassNameToId[k].1 then 1 else 0
      invariant forall k :: j <= k < |ClassNameToId| ==> count'[ClassNameToId[k].0] == count[ClassNameToId[k].0]
    {
      var (clsName, clsId) := ClassNameToId[j];
      if boxLabel == clsId {
        count' := count'[clsName := count'[clsName] + 1];
      }
    }
    forall c | c in TargetClasses
      ensures count'[c] == count[c] + if boxLabel == IdOf(c) then 1 else 0
    {
      var k :| 0 <= k < |ClassNameToId| && ClassNameToId[k] == (c, IdOf(c));
    }
  }

  /**
   * The counting loop of `detect_vehicles_from_snapshot`: start every target
   * class at zero, then let each label bump the class whose id it equals.
   */
  method CountLabels(labels: seq<int>) returns (count: map<string, int>)
    ensures count.Keys == TargetClassSet
    ensures forall c :: c in TargetClasses ==> count[c] == multiset(labels)[IdOf(c)]
    ensures count == Tally(labels)
  {
    count := map c | c in TargetClasses :: 0;
    for i := 0 to |labels|
      invariant count.Keys == TargetClassSet
      invariant forall c :: c in TargetClasses ==> count[c] == multiset(labels[..i])[IdOf(c)]
    {
      assert labels[..i + 1] == labels[..i] + [labels[i]];
      count := Bump(count, labels[i]);
    }
    assert labels[..|labels|] == labels;
  }

  /** The count map of a successful detection. */
  function Counted(count: map<string, int>): map<string, Count>
  {
    map c | c in count :: Num(count[c])
  }

  /** `{cls: "X" for cls in TARGET_CLASSES}`. */
  function Sentinel(): map<string, Count>
  {
    map c | c in TargetClasses :: Unknown
  }

  /** Every class has a real, non-negative count. */
  predicate AllCounted(m: map<string, Count>)
  {
    m.Keys == TargetClassSet && forall c :: c in m ==> m[c].Num? && m[c].n >= 0
  }

  /** Every class carries the sentinel. */
  predicate AllUnknown(m: map<string, Count>)
  {
    m.Keys == TargetClassSet && forall c :: c in m ==> m[c].Unknown?
  }

  /** No count map is both all counts and all sentinels. */
  lemma CountedExcludesUnknown(m: map<string, Count>)
    ensures !(AllCounted(m) && AllUnknown(m))
  {
    assert "car" in TargetClassSet;
  }

  lemma CountedTally(labels: seq<int>)
    ensures AllCounted(Counted(Tally(labels)))
    ensures forall c :: c in TargetClasses ==> Counted(Tally(labels))[c] == Num(multiset(labels)[IdOf(c)])
  {
  }

  lemma SentinelShape()
    ensures AllUnknown(Sentinel())
  {
  }

  /** Labels equal to one of the four target ids. */
  function Targeted(labels: seq<int>): (n: nat)
  {
    multiset(labels)[2] + multiset(labels)[3] + multiset(labels)[5] + multiset(labels)[7]
  }

  lemma {:induction false} TargetedBound(labels: seq<int>)
    ensures Targeted(labels) <= |labels|
    ensures Targeted(labels) == |labels| <==> forall i :: 0 <= i < |labels| ==> labels[i] in {2, 3, 5, 7}
  {
    if labels != [] {
      var init, last := labels[..|labels| - 1], labels[|labels| - 1];
      assert labels == init + [last];
      TargetedBound(init);
      assert multiset(labels) == multiset(init) + multiset{last};
      if forall i :: 0 <= i < |labels| ==> labels[i] in {2, 3, 5, 7} {
        assert forall i :: 0 <= i < |init| ==> init[i] == labels[i];
      }
      if forall i :: 0 <= i < |init| ==> init[i] in {2, 3, 5, 7} {
        assert forall i :: 0 <= i < |init| ==> labels[i] == init[i];
      }
    }
  }

  /**
   * The four counts sum to at most the number of labels; they sum to exactly
   * that number when every label is a target id, as the detector's class
   * filter ensures.
   */
  lemma TallySum(labels: seq<int>)
    ensures forall c :: c in TargetClasses ==> Tally(labels)[c] >= 0
    ensures Tally(labels)["car"] + Tally(labels)["motorcycle"] + Tally(labels)["bus"] + Tally(labels)["truck"] <= |labels|
    ensures (forall i :: 0 <= i < |labels| ==> labels[i] in {2, 3, 5, 7}) ==>
      Tally(labels)["car"] + Tally(labels)["motorcycle"] + Tally(labels)["bus"] + Tally(labels)["truck"] == |labels|
  {
    TargetedBound(labels);
  }
}
