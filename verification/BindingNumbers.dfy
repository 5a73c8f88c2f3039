/** Replacing the binding numbers of a caller by those of a key in one of the caches. */
module BindingNumbers {
  import opened LayoutOrder

  function Renumbered(bindings: seq<Binding>, key: seq<Binding>): seq<Binding>
    requires |bindings| == |key|
  {
    seq(|key|, i requires 0 <= i < |key| => bindings[i].(binding := key[i].binding))
  }

  /** The loop that gives the bindings of the caller the binding numbers of the key that was found. */
  method FixBindings(bindings: seq<Binding>, key: seq<Binding>) returns (fixed: seq<Binding>)
    requires |bindings| == |key|
    ensures fixed == Renumbered(bindings, key)
  {
    fixed := bindings;
    for i := 0 to |key|
      invariant |fixed| == |key|
      invariant forall j :: 0 <= j < i ==> fixed[j] == bindings[j].(binding := key[j].binding)
      invariant forall j :: i <= j < |key| ==> fixed[j] == bindings[j]
    {
      fixed := fixed[i := fixed[i].(binding := key[i].binding)];
    }
  }

  /** The assertions around that loop: the sizes are equal, and afterwards the bindings are those of the key. */
  lemma RenumberedIsKey(bindings: seq<Binding>, key: seq<Binding>)
    requires Anonymous(bindings) == Anonymous(key)
    ensures |bindings| == |key| && Renumbered(bindings, key) == key
  {
    assert |Anonymous(bindings)| == |bindings| && |Anonymous(key)| == |key|;
    forall i | 0 <= i < |key|
      ensures Renumbered(bindings, key)[i] == key[i]
    {
      assert Anonymous(bindings)[i] == Anonymous(key)[i];
    }
  }
}
