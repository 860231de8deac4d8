/** Several agents behind one: listings are concatenated, signing falls back in order. */
module WrappedAgent {
  import opened Wrappers

  datatype Reply<+T> = Ok(value: T) | Err(error: string)

  function Concat<T>(lists: seq<seq<T>>): seq<T> {
    if lists == [] then [] else Concat(lists[..|lists| - 1]) + lists[|lists| - 1]
  }

  /** The lists one after the other: nothing of none, a single one as it is. */
  lemma {:induction false} ConcatInOrder<T>(first: seq<seq<T>>, list: seq<T>, after: seq<seq<T>>)
    ensures Concat<T>([]) == [] && Concat([list]) == list
    ensures Concat(first + after) == Concat(first) + Concat(after)
    decreases after
  {
    assert [list][..0] == [];
    if after == [] {
      assert first + after == first;
    } else {
      var front := after[..|after| - 1];
      ConcatInOrder(first, list, front);
      assert (first + after)[..|first + after| - 1] == first + front;
      assert Concat(first) + Concat(front) + after[|after| - 1] == Concat(first) + (Concat(front) + after[|after| - 1]);
    }
  }

  /**
   Given what each agent would answer: every key of every agent in order, or the first agent's error,
   with no agent asked after it.
   */
  method List<T>(agents: seq<Reply<seq<T>>>) returns (keys: Reply<seq<T>>, asked: nat)
    ensures asked <= |agents| && forall i :: 0 <= i < asked - 1 ==> agents[i].Ok?
    ensures keys.Ok? <==> forall i :: 0 <= i < |agents| ==> agents[i].Ok?
    ensures keys.Ok? ==> keys.value == Concat(seq(|agents|, i requires 0 <= i < |agents| =>
                                               if agents[i].Ok? then agents[i].value else []))
    ensures keys.Err? ==> asked > 0 && agents[asked - 1] == Err(keys.error)
  {
    ghost var lists := seq(|agents|, i requires 0 <= i < |agents| => if agents[i].Ok? then agents[i].value else []);
    var allKeys: seq<T> := [];
    asked := 0;
    while asked < |agents|
      invariant 0 <= asked <= |agents| && forall i :: 0 <= i < asked ==> agents[i].Ok?
      invariant allKeys == Concat(lists[..asked])
    {
      var reply := agents[asked];
      asked := asked + 1;
      if reply.Err? {
        return Err(reply.error), asked;
      }
      assert lists[..asked][..asked - 1] == lists[..asked - 1];
      allKeys := allKeys + reply.value;
    }
    assert lists[..|agents|] == lists;
    return Ok(allKeys), asked;
  }

  /**
   The first agent that succeeds answers and no later one is asked; if none does, the error is the
   default agent's. None stands for the nil signature and nil error of an empty agent list.
   */
  method SignWithFlags<T>(agents: seq<Reply<T>>) returns (result: Option<Reply<T>>, asked: nat)
    ensures result.None? <==> agents == []
    ensures result.Some? && result.value.Ok? ==>
              && 0 < asked <= |agents| && result.value == agents[asked - 1]
              && forall i :: 0 <= i < asked - 1 ==> agents[i].Err?
    ensures result.Some? && result.value.Err? ==>
              result.value == agents[0] && asked == |agents| && forall i :: 0 <= i < |agents| ==> agents[i].Err?
    ensures (exists i :: 0 <= i < |agents| && agents[i].Ok?) ==> result.Some? && result.value.Ok?
  {
    var firstError: Option<string> := None;
    asked := 0;
    while asked < |agents|
      invariant 0 <= asked <= |agents|
      invariant forall i :: 0 <= i < asked ==> agents[i].Err?
      invariant firstError.None? <==> asked == 0
      invariant firstError.Some? ==> agents[0] == Err(firstError.value)
    {
      var reply := agents[asked];
      asked := asked + 1;
      if reply.Ok? {
        return Some(reply), asked;
      }
      if firstError.None? {
        firstError := Some(reply.error);
      }
    }
    if firstError.Some? {
      result := Some(Err(firstError.value));
    } else {
      result := None;
    }
  }
}
