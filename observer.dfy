/** The observer registry of the retriever: a list of observers with no repeats, to which
    `attach` appends, from which `detach` removes, and over which `notify` calls `update` in
    order. Observers are compared by identity, as Python's `in` does for objects without
    their own equality. */
module ObserverRegistry {
  import opened Seqs

  /** The observer list after `attach(o)`. */
  function Attached<O(==)>(obs: seq<O>, o: O): seq<O> {
    if o in obs then obs else obs + [o]
  }

  /** The observer list after `detach(o)`. */
  function Detached<O(==)>(obs: seq<O>, o: O): seq<O> {
    if o in obs then RemoveFirst(obs, o) else obs
  }

  /** Attaching keeps the list free of repeats, keeps the earlier observers in front in
      their order, adds exactly `o`, and changes nothing when `o` is already there. */
  lemma AttachedFacts<O>(obs: seq<O>, o: O)
    ensures NoDups(obs) ==> NoDups(Attached(obs, o))
    ensures Attached(obs, o)[..|obs|] == obs
    ensures |Attached(obs, o)| == if o in obs then |obs| else |obs| + 1
    ensures forall x :: x in Attached(obs, o) <==> x in obs || x == o
  {
    if o !in obs {
      assert (obs + [o])[..|obs|] == obs;
      if NoDups(obs) {
        var r := obs + [o];
        forall i, j | 0 <= i < j < |r| ensures r[i] != r[j] {
          if j == |obs| {
            assert r[i] in obs;
          }
        }
      }
    }
  }

  /** Attaching twice is attaching once. */
  lemma AttachIdempotent<O>(obs: seq<O>, o: O)
    ensures Attached(Attached(obs, o), o) == Attached(obs, o)
  {
    AttachedFacts(obs, o);
  }

  /** In a list without repeats, detaching `o` is filtering it out: every other observer
      stays, in its relative order, and `o` is gone; detaching an absent observer is a
      no-op. */
  lemma DetachedFacts<O>(obs: seq<O>, o: O)
    requires NoDups(obs)
    ensures Detached(obs, o) == Filter(x => x != o, obs)
    ensures NoDups(Detached(obs, o))
    ensures o !in Detached(obs, o)
    ensures o !in obs ==> Detached(obs, o) == obs
  {
    var p := x => x != o;
    if o in obs {
      var r := RemoveFirst(obs, o);
      RemoveOnlyCopy(obs, o);
      forall x | x in r ensures p(x) { }
      FilterAll(p, r);
      FilterRemoveFirst(p, obs, o);
    } else {
      forall x | x in obs ensures p(x) { }
      FilterAll(p, obs);
    }
  }

  /** Removing the one copy of `o` from a list without repeats leaves no `o` and no repeats. */
  lemma RemoveOnlyCopy<O>(obs: seq<O>, o: O)
    requires NoDups(obs) && o in obs
    ensures o !in RemoveFirst(obs, o) && NoDups(RemoveFirst(obs, o))
  {
    var k := FirstIndex(obs, o);
    var r := RemoveFirst(obs, o);
    assert |r| == |obs| - 1;
    forall i | 0 <= i < |r| ensures r[i] == obs[if i < k then i else i + 1] {
    }
    forall i | 0 <= i < |r| ensures r[i] != o {
      assert obs[k] == o;
    }
    forall i, j | 0 <= i < j < |r| ensures r[i] != r[j] {
      var i' := if i < k then i else i + 1;
      var j' := if j < k then j else j + 1;
      assert r[i] == obs[i'] && r[j] == obs[j'];
    }
  }

  /** Attaching an absent observer and detaching it again restores the list. */
  lemma AttachDetachRestores<O>(obs: seq<O>, o: O)
    requires o !in obs
    ensures Detached(Attached(obs, o), o) == obs
  {
    var s := obs + [o];
    assert s[|obs|] == o;
    var k := FirstIndex(s, o);
    assert forall j :: 0 <= j < |obs| ==> s[j] == obs[j] && s[j] != o;
    assert k == |obs|;
    assert s[..k] == obs;
  }

  /** One call `observer.update(observable, *args)`. */
  datatype Update<O, A> = Update(observer: O, observable: object, args: A)

  class Observable<O(==)> {
    /** `self._observers`. */
    var observers: seq<O>

    ghost predicate Valid()
      reads this
    {
      NoDups(observers)
    }

    constructor ()
      ensures Valid() && observers == []
    {
      observers := [];
    }

    method Attach(o: O)
      requires Valid()
      modifies this
      ensures Valid()
      ensures observers == Attached(old(observers), o)
    {
      AttachedFacts(observers, o);
      if o !in observers {
        observers := observers + [o];
      }
    }

    method Detach(o: O)
      requires Valid()
      modifies this
      ensures Valid()
      ensures observers == Detached(old(observers), o)
    {
      DetachedFacts(observers, o);
      if o in observers {
        observers := RemoveFirst(observers, o);
      }
    }

    /** `notify`: the `update` calls it makes, one per observer, in list order, each given
        this observable and the same arguments. */
    method Notify<A>(args: A) returns (calls: seq<Update<O, A>>)
      ensures |calls| == |observers|
      ensures forall i :: 0 <= i < |observers| ==> calls[i] == Update(observers[i], this, args)
    {
      calls := [];
      for i := 0 to |observers|
        invariant |calls| == i
        invariant forall j :: 0 <= j < i ==> calls[j] == Update(observers[j], this, args)
      {
        calls := calls + [Update(observers[i], this, args)];
      }
    }
  }
}
