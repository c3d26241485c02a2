/** Hash tables with chains; their entries are identified by numbers. */
module HashChains {
  import opened Lists

  type Id = nat

  function Chain(table: map<nat, seq<Id>>, index: nat): seq<Id> {
    if index in table then table[index] else []
  }

  /** CmpRemoveKeyHash and its twin for names: the entry is in the chain, so the walk ends at it, and it is unlinked. */
  method Unlink(chain: seq<Id>, k: Id) returns (rest: seq<Id>)
    requires k in chain
    ensures rest == Remove(chain, k)
  {
    var i := 0;
    while chain[i] != k
      invariant i < |chain| && forall j :: 0 <= j < i ==> chain[j] != k
      decreases |chain| - i
    {
      assert exists j :: i <= j < |chain| && chain[j] == k;
      i := i + 1;
    }
    RemoveAt(chain, k, i);
    rest := chain[..i] + chain[i + 1..];
  }
}
