/** The watcher that keeps one Hyper-V listener per running virtual machine. */
module VSock {
  import opened Bytes
  import opened Wrappers
  import opened Wsl2

  // ---------------------------------------------------------------- comparing snapshots

  /** The elements of s that are not in t, in order and with their repetitions. */
  function Without(s: seq<Text>, t: seq<Text>): (r: seq<Text>)
    ensures forall v :: v in r <==> v in s && v !in t
  {
    if s == [] then []
    else Without(s[..|s| - 1], t) + if s[|s| - 1] in t then [] else [s[|s| - 1]]
  }

  lemma WithoutAppend(s: seq<Text>, last: Text, t: seq<Text>)
    ensures Without(s + [last], t) == Without(s, t) + if last in t then [] else [last]
  {
    assert (s + [last])[..|s|] == s;
  }

  /** One after the other, each kept exactly if it is not in t. */
  lemma {:induction false} WithoutInOrder(first: seq<Text>, v: Text, after: seq<Text>, t: seq<Text>)
    ensures Without([v], t) == (if v in t then [] else [v])
    ensures Without(first + after, t) == Without(first, t) + Without(after, t)
    decreases after
  {
    assert [v][..0] == [];
    if after == [] {
      assert first + after == first;
    } else {
      var front, last := after[..|after| - 1], after[|after| - 1];
      WithoutInOrder(first, v, front, t);
      WithoutAppend(front, last, t);
      WithoutAppend(first + front, last, t);
      assert after == front + [last] && first + after == first + front + [last];
      Regroup(Without(first, t), Without(front, t), if last in t then [] else [last]);
    }
  }

  /** v occurs at least twice. */
  predicate Repeats(s: seq<Text>, v: Text) {
    exists i, j :: 0 <= i < j < |s| && s[i] == v && s[j] == v
  }

  /** What is missing from t keeps its repetitions. */
  lemma {:induction false} WithoutRepeats(s: seq<Text>, t: seq<Text>, v: Text)
    ensures Repeats(Without(s, t), v) <==> v !in t && Repeats(s, v)
  {
    if s != [] {
      var front, last := s[..|s| - 1], s[|s| - 1];
      WithoutRepeats(front, t, v);
      var r := Without(front, t);
      RepeatsAppend(front, last, v);
      RepeatsAppend(r, last, v);
      assert s == front + [last];
      assert Without(s, t) == if last in t then r else r + [last];
    }
  }

  /** The VMs that get a listener when each of these is tried in turn and the attempts numbered in `fails` fail. */
  function Opened(add: seq<Text>, fails: set<nat>): (r: seq<Text>)
    ensures |r| <= |add|
    ensures forall v :: v in r ==> v in add
  {
    if add == [] then []
    else Opened(add[..|add| - 1], fails) + if |add| - 1 in fails then [] else [add[|add| - 1]]
  }

  /** A VM gets a listener exactly if some attempt for it does not fail. */
  lemma {:induction false} OpenedIff(add: seq<Text>, fails: set<nat>, v: Text)
    ensures v in Opened(add, fails) <==> exists i: nat :: i < |add| && add[i] == v && i !in fails
  {
    if add != [] {
      var front := add[..|add| - 1];
      OpenedIff(front, fails, v);
      assert forall i: nat :: i < |front| ==> front[i] == add[i];
    }
  }

  /** It gets two exactly if two attempts for it do not fail. */
  lemma {:induction false} OpenedTwiceIff(add: seq<Text>, fails: set<nat>, v: Text)
    ensures Repeats(Opened(add, fails), v) <==>
            exists i: nat, j: nat :: i < j < |add| && add[i] == v && add[j] == v && i !in fails && j !in fails
  {
    if add != [] {
      var front, last := add[..|add| - 1], add[|add| - 1];
      OpenedTwiceIff(front, fails, v);
      OpenedIff(front, fails, v);
      RepeatsAppend(Opened(front, fails), last, v);
      assert forall i: nat :: i < |front| ==> front[i] == add[i];
    }
  }

  /** If no attempt fails every one of them opens a listener. */
  lemma {:induction false} AllOpened(add: seq<Text>, fails: set<nat>)
    requires forall i :: 0 <= i < |add| ==> i !in fails
    ensures Opened(add, fails) == add
  {
    if add != [] {
      AllOpened(add[..|add| - 1], fails);
    }
  }

  /** Two listeners for one VM need two attempts for it. */
  lemma {:induction false} OpenedRepeats(add: seq<Text>, fails: set<nat>, v: Text)
    ensures Repeats(Opened(add, fails), v) ==> Repeats(add, v)
  {
    if add != [] {
      var front, last := add[..|add| - 1], add[|add| - 1];
      OpenedRepeats(front, fails, v);
      RepeatsAppend(front, last, v);
      RepeatsAppend(Opened(front, fails), last, v);
      assert add == front + [last];
    }
  }

  lemma NoDuplicatesAppend(s: seq<Text>, last: Text)
    ensures NoDuplicates(s + [last]) <==> NoDuplicates(s) && last !in s
  {
    if NoDuplicates(s + [last]) {
      forall i | 0 <= i < |s| ensures s[i] != last {
        assert (s + [last])[i] == s[i] && (s + [last])[|s|] == last;
      }
      forall i, j | 0 <= i < j < |s| ensures s[i] != s[j] {
        assert (s + [last])[i] == s[i] && (s + [last])[j] == s[j];
      }
    }
  }

  /** With no id listed twice none is open twice, whatever fails. */
  lemma OpenedOnce(vmids: seq<Text>, before: seq<Text>, fails: set<nat>)
    requires NoDuplicates(vmids)
    ensures NoDuplicates(Opened(Without(vmids, before), fails))
  {
    var open := Opened(Without(vmids, before), fails);
    forall i, j | 0 <= i < j < |open| ensures open[i] != open[j] {
      OpenedRepeats(Without(vmids, before), fails, open[i]);
      WithoutRepeats(vmids, before, open[i]);
    }
  }

  lemma RepeatsAppend(s: seq<Text>, last: Text, v: Text)
    ensures Repeats(s + [last], v) <==> Repeats(s, v) || (v == last && v in s)
  {
    if Repeats(s, v) {
      var i, j :| 0 <= i < j < |s| && s[i] == v && s[j] == v;
      assert (s + [last])[i] == v && (s + [last])[j] == v;
    }
    if v == last && v in s {
      var i :| 0 <= i < |s| && s[i] == v;
      assert (s + [last])[i] == v && (s + [last])[|s|] == v;
    }
  }

  method IDSet(s: seq<Text>) returns (ids: set<Text>)
    ensures forall v :: v in ids <==> v in s
  {
    ids := {};
    for i := 0 to |s|
      invariant forall v :: v in ids <==> v in s[..i]
    {
      ids := ids + {s[i]};
    }
    assert s[..|s|] == s;
  }

  method VmidDiff(before: seq<Text>, now: seq<Text>) returns (add: seq<Text>, del: seq<Text>)
    ensures add == Without(now, before) && del == Without(before, now)
  {
    add, del := [], [];
    var oldIDs := IDSet(before);
    var newIDs := IDSet(now);
    assert before[..|before|] == before && now[..|now|] == now;
    for i := 0 to |now|
      invariant add == Without(now[..i], before)
    {
      assert now[..i + 1][..i] == now[..i];
      if now[i] !in oldIDs {
        add := add + [now[i]];
      }
    }
    for i := 0 to |before|
      invariant del == Without(before[..i], now)
    {
      assert before[..i + 1][..i] == before[..i];
      if before[i] !in newIDs {
        del := del + [before[i]];
      }
    }
  }

  // ---------------------------------------------------------------- the watcher

  /** A VM that stays keeps its worker or lack of one; a new one gets what its attempts give. */
  ghost predicate Follows(before: set<Text>, last: seq<Text>, vmids: seq<Text>, fails: set<nat>,
                          after: set<Text>) {
    forall v :: v in after <==>
                v in vmids && if v in last then v in before else v in Opened(Without(vmids, last), fails)
  }

  /** When no attempt fails, a VM is opened twice exactly if it is new and listed twice. */
  lemma OpenedOnceIff(vmids: seq<Text>, before: seq<Text>, fails: set<nat>)
    requires forall i :: 0 <= i < |vmids| ==> i !in fails
    ensures NoDuplicates(Opened(Without(vmids, before), fails)) <==> forall v :: Repeats(vmids, v) ==> v in before
  {
    var add := Without(vmids, before);
    WithoutShrinks(vmids, before);
    AllOpened(add, fails);
    if NoDuplicates(add) {
      forall v | Repeats(vmids, v) ensures v in before {
        WithoutRepeats(vmids, before, v);
      }
    } else {
      var i, j :| 0 <= i < j < |add| && add[i] == add[j];
      WithoutRepeats(vmids, before, add[i]);
    }
  }

  lemma WithoutShrinks(s: seq<Text>, t: seq<Text>)
    ensures |Without(s, t)| <= |s|
  {
  }

  class Watcher {
    var lastVMIDs: seq<Text>
    var workers: map<Text, nat>
    /** Listeners that are open, by the order they were created in. */
    var listeners: set<nat>
    var created: nat
    /** Open listeners that no worker refers to any more. */
    ghost var lost: set<nat>

    constructor ()
      ensures Valid() && lastVMIDs == [] && workers == map[] && lost == {}
    {
      lastVMIDs, workers, listeners, created, lost := [], map[], {}, 0, {};
    }

    /** The open listeners are exactly the workers', each its own, and the lost ones. */
    ghost predicate Tracks()
      reads this
    {
      && listeners == workers.Values + lost
      && workers.Values !! lost
      && (forall u, v :: u in workers && v in workers && workers[u] == workers[v] ==> u == v)
      && (forall l :: l in listeners ==> l < created)
    }

    ghost predicate Valid()
      reads this
    {
      Tracks() && forall v :: v in workers ==> v in lastVMIDs
    }

    /** A listener for v opens; one that v already had is lost. */
    method Open(v: Text)
      requires Tracks()
      modifies this`workers, this`listeners, this`created, this`lost
      ensures Tracks()
      ensures workers == old(workers)[v := old(created)] && created == old(created) + 1
      ensures lost == old(lost) + if v in old(workers) then {old(workers)[v]} else {}
    {
      if v in workers {
        lost := lost + {workers[v]};
      }
      ghost var was := workers;
      workers := workers[v := created];
      listeners := listeners + {created};
      created := created + 1;
      assert workers[v] in workers.Values;
      forall l | l in listeners ensures l in workers.Values + lost {
        if l in was.Values {
          var u :| u in was && was[u] == l;
          assert u != v ==> workers[u] == l;
        }
      }
    }

    /** The listener of v closes, if it has one. */
    method CloseWorker(v: Text)
      requires Tracks()
      modifies this`workers, this`listeners
      ensures Tracks() && workers == old(workers) - {v}
    {
      if v in workers {
        ghost var was := workers;
        listeners := listeners - {workers[v]};
        workers := workers - {v};
        forall l | l in listeners ensures l in workers.Values + lost {
          if l in was.Values {
            var u :| u in was && was[u] == l;
            assert u in workers && workers[u] == l;
          }
        }
        assert forall u :: u in workers ==> workers[u] in was.Values && workers[u] != was[v];
      } else {
        assert workers - {v} == workers;
      }
    }

    /** Tries a listener for each new VM; a VM opened twice loses the first. */
    method AddWorkers(add: seq<Text>, fails: set<nat>)
      requires Tracks() && forall v :: v in add ==> v !in workers
      modifies this`workers, this`listeners, this`created, this`lost
      ensures Tracks()
      ensures forall v :: v in workers <==> v in old(workers) || v in Opened(add, fails)
      ensures forall v :: v in old(workers) ==> workers[v] == old(workers)[v]
      ensures old(lost) <= lost
      ensures lost == old(lost) <==> NoDuplicates(Opened(add, fails))
    {
      assert add[..|add|] == add;
      ghost var done: seq<Text> := [];
      for i := 0 to |add|
        invariant Tracks() && old(lost) <= lost && old(created) <= created
        invariant done == Opened(add[..i], fails)
        invariant forall v :: v in workers <==> v in old(workers) || v in done
        invariant forall v :: v in old(workers) ==> workers[v] == old(workers)[v]
        invariant forall v :: v in workers && v !in old(workers) ==> workers[v] !in old(lost)
        invariant lost == old(lost) <==> NoDuplicates(done)
      {
        var v := add[i];
        assert add[..i + 1][..i] == add[..i];
        if i in fails {
          continue;
        }
        NoDuplicatesAppend(done, v);
        ghost var was := workers;
        assert v in was ==> was[v] in was.Values && was[v] !in old(lost);
        Open(v);
        assert v in was ==> was[v] in lost;
        done := done + [v];
      }
    }

    /** Closes the worker of each VM that is gone. */
    method RemoveWorkers(del: seq<Text>)
      requires Tracks()
      modifies this`workers, this`listeners
      ensures Tracks()
      ensures forall v :: v in workers <==> v in old(workers) && v !in del
      ensures forall v :: v in workers ==> workers[v] == old(workers)[v]
    {
      assert del[..|del|] == del;
      for i := 0 to |del|
        invariant Tracks()
        invariant forall v :: v in workers <==> v in old(workers) && v !in del[..i]
        invariant forall v :: v in workers ==> workers[v] == old(workers)[v]
      {
        CloseWorker(del[i]);
      }
    }

    /** One round of the watch loop over a new snapshot. */
    method Round(vmids: seq<Text>, fails: set<nat>)
      requires Valid()
      modifies this
      ensures Valid() && lastVMIDs == vmids
      ensures Follows(old(workers).Keys, old(lastVMIDs), vmids, fails, workers.Keys)
      ensures forall v :: v in workers && v in old(workers) ==> workers[v] == old(workers)[v]
      ensures old(lost) <= lost
      ensures lost == old(lost) <==> NoDuplicates(Opened(Without(vmids, old(lastVMIDs)), fails))
    {
      var add, del := VmidDiff(lastVMIDs, vmids);
      AddWorkers(add, fails);
      RemoveWorkers(del);
      lastVMIDs := vmids;
    }
  }

  // ---------------------------------------------------------------- any history

  /** What a round found running, and which of its attempts to create a listener failed, counted from 0. */
  datatype Snapshot = Snapshot(vmids: seq<Text>, fails: set<nat>)

  function LastVMIDs(history: seq<Snapshot>): seq<Text> {
    if history == [] then [] else history[|history| - 1].vmids
  }

  /** The VMs that got a listener in round k, one entry for each listener. */
  function OpenedIn(history: seq<Snapshot>, k: nat): seq<Text>
    requires k < |history|
  {
    Opened(Without(history[k].vmids, LastVMIDs(history[..k])), history[k].fails)
  }

  /** The round in which v's current unbroken presence began. */
  function PresenceStart(history: seq<Snapshot>, v: Text): (start: nat)
    requires history != [] && v in history[|history| - 1].vmids
    ensures start < |history|
    ensures forall i :: start <= i < |history| ==> v in history[i].vmids
    ensures start == 0 || v !in history[start - 1].vmids
  {
    var front := history[..|history| - 1];
    if front == [] || v !in front[|front| - 1].vmids then |front| else PresenceStart(front, v)
  }

  /** v is running, and creating a listener for it succeeded when its current presence began. */
  predicate Served(history: seq<Snapshot>, v: Text) {
    && history != [] && v in history[|history| - 1].vmids
    && v in OpenedIn(history, PresenceStart(history, v))
  }

  ghost predicate ServesExactly(vms: set<Text>, history: seq<Snapshot>) {
    forall v :: v in vms <==> Served(history, v)
  }

  lemma OpenedInFront(history: seq<Snapshot>, snapshot: Snapshot, k: nat)
    requires k < |history|
    ensures OpenedIn(history + [snapshot], k) == OpenedIn(history, k)
  {
    assert (history + [snapshot])[..k] == history[..k];
  }

  lemma ServedStep(before: set<Text>, history: seq<Snapshot>, snapshot: Snapshot, after: set<Text>)
    requires ServesExactly(before, history)
    requires Follows(before, LastVMIDs(history), snapshot.vmids, snapshot.fails, after)
    ensures ServesExactly(after, history + [snapshot])
  {
    var longer := history + [snapshot];
    assert longer[..|history|] == history;
    forall v ensures v in after <==> Served(longer, v) {
      if v in snapshot.vmids && v in LastVMIDs(history) {
        OpenedInFront(history, snapshot, PresenceStart(history, v));
      }
    }
  }

  /** No round of this history opened two listeners for one VM. */
  predicate OpensOnce(history: seq<Snapshot>) {
    forall k :: 0 <= k < |history| ==> NoDuplicates(OpenedIn(history, k))
  }

  lemma OpensOnceStep(history: seq<Snapshot>, snapshot: Snapshot)
    ensures OpensOnce(history + [snapshot]) <==>
            OpensOnce(history) && NoDuplicates(Opened(Without(snapshot.vmids, LastVMIDs(history)), snapshot.fails))
  {
    var longer := history + [snapshot];
    assert longer[..|history|] == history;
    assert OpenedIn(longer, |history|) == Opened(Without(snapshot.vmids, LastVMIDs(history)), snapshot.fails);
    forall k | 0 <= k < |history| ensures OpenedIn(longer, k) == OpenedIn(history, k) {
      OpenedInFront(history, snapshot, k);
    }
  }

  /** What one round meets: the command lines (None if the query fails) and the attempts that will fail. */
  datatype Observation = Observation(lines: Option<seq<Text>>, fails: set<nat>) {
    function Arguments(): set<Text> {
      if lines.Some? then VMArguments(lines.value) else {}
    }

    /** One argument is a brace and nothing else. */
    predicate HasLoneBrace() {
      exists arg <- Arguments() :: |arg| < 2
    }
  }

  /** The snapshot of a round holds the stripped arguments of that round's command lines, in some order. */
  ghost predicate Records(snapshot: Snapshot, observation: Observation) {
    && snapshot.fails == observation.fails
    && exists order :: StripsAll(snapshot.vmids, order, observation.Arguments())
  }

  /** The start of a round; None if reading the command lines panics. */
  method Observe(observation: Observation) returns (snapshot: Option<Snapshot>)
    ensures snapshot.None? <==> observation.HasLoneBrace()
    ensures snapshot.Some? ==> Records(snapshot.value, observation)
  {
    var scan := GetVMIDs(observation.lines);
    if scan.Panicked? {
      return None;
    }
    assert observation.lines.None? ==> StripsAll(scan.ids, [], {});
    snapshot := Some(Snapshot(scan.ids, observation.fails));
  }

  /** A history of the rounds so far, each with a snapshot of what it observed. */
  ghost predicate RecordsAll(history: seq<Snapshot>, observations: seq<Observation>) {
    && |history| <= |observations|
    && forall k :: 0 <= k < |history| ==> Records(history[k], observations[k]) && !observations[k].HasLoneBrace()
  }

  lemma RecordsAllStep(history: seq<Snapshot>, observations: seq<Observation>, snapshot: Snapshot)
    requires RecordsAll(history, observations) && |history| < |observations|
    requires Records(snapshot, observations[|history|]) && !observations[|history|].HasLoneBrace()
    ensures RecordsAll(history + [snapshot], observations)
  {
  }

  /** No round opens two listeners for one VM if stripping keeps apart the arguments each round observes. */
  lemma ApartOpensOnce(history: seq<Snapshot>, observations: seq<Observation>)
    requires RecordsAll(history, observations)
    requires forall k :: 0 <= k < |history| ==> StripsApart(observations[k].Arguments())
    ensures OpensOnce(history)
  {
    forall k | 0 <= k < |history| ensures NoDuplicates(OpenedIn(history, k)) {
      assert Records(history[k], observations[k]);
      var order :| StripsAll(history[k].vmids, order, observations[k].Arguments());
      DistinctIffApart(history[k].vmids, order, observations[k].Arguments());
      OpenedOnce(history[k].vmids, LastVMIDs(history[..k]), history[k].fails);
    }
  }

  /** This is where a history leads, and a listener was lost exactly if some round opened two for one VM. */
  ghost predicate Agree(vmids: seq<Text>, vms: set<Text>, lost: set<nat>, history: seq<Snapshot>) {
    vmids == LastVMIDs(history) && ServesExactly(vms, history) && (lost == {} <==> OpensOnce(history))
  }

  lemma AgreeStep(vmids: seq<Text>, before: set<Text>, gone: set<nat>, history: seq<Snapshot>,
                  snapshot: Snapshot, after: set<Text>, lost: set<nat>)
    requires Agree(vmids, before, gone, history) && gone <= lost
    requires Follows(before, vmids, snapshot.vmids, snapshot.fails, after)
    requires lost == gone <==> NoDuplicates(Opened(Without(snapshot.vmids, vmids), snapshot.fails))
    ensures Agree(snapshot.vmids, after, lost, history + [snapshot])
  {
    ServedStep(before, history, snapshot, after);
    OpensOnceStep(history, snapshot);
  }

  /** One round; None if reading the command lines panics, before anything is changed. */
  method WatchOnce(w: Watcher, observation: Observation, ghost history: seq<Snapshot>)
    returns (snapshot: Option<Snapshot>)
    requires w.Valid() && Agree(w.lastVMIDs, w.workers.Keys, w.lost, history)
    modifies w
    ensures w.Valid()
    ensures snapshot.None? <==> observation.HasLoneBrace()
    ensures snapshot.None? ==> Agree(w.lastVMIDs, w.workers.Keys, w.lost, history)
    ensures snapshot.Some? ==>
              && Records(snapshot.value, observation)
              && Agree(w.lastVMIDs, w.workers.Keys, w.lost, history + [snapshot.value])
  {
    snapshot := Observe(observation);
    if snapshot.None? {
      return;
    }
    ghost var last, before, gone := w.lastVMIDs, w.workers.Keys, w.lost;
    w.Round(snapshot.value.vmids, snapshot.value.fails);
    AgreeStep(last, before, gone, history, snapshot.value, w.workers.Keys, w.lost);
  }

  /**
   Over any run of the watch loop, whatever is observed and whichever attempts fail: a VM has a worker exactly
   when it is served; the loop panics exactly if some observation has a lone brace, at the first such one;
   an open listener is lost exactly if some round opened two for one VM.
   */
  method Wsl2Watcher(observations: seq<Observation>)
    returns (w: Watcher, panicked: bool, ghost history: seq<Snapshot>)
    ensures fresh(w) && w.Valid()
    ensures RecordsAll(history, observations)
    ensures panicked <==> |history| < |observations|
    ensures panicked ==> observations[|history|].HasLoneBrace()
    ensures ServesExactly(w.workers.Keys, history)
    ensures w.lost == {} <==> OpensOnce(history)
    ensures w.listeners == w.workers.Values <==> OpensOnce(history)
  {
    w := new Watcher();
    history := [];
    panicked := false;
    for k := 0 to |observations|
      invariant fresh(w) && |history| == k && w.Valid() && Agree(w.lastVMIDs, w.workers.Keys, w.lost, history)
      invariant RecordsAll(history, observations)
    {
      var snapshot := WatchOnce(w, observations[k], history);
      if snapshot.None? {
        return w, true, history;
      }
      RecordsAllStep(history, observations, snapshot.value);
      history := history + [snapshot.value];
    }
  }

  /**
   A listener can be lost: an id in two kinds of bracket is new and listed twice, and both attempts succeed. Whether
   the system grants the second one is the environment's choice.
   */
  method LosingRun(id: Text) returns (w: Watcher)
    requires SPACE !in id
    ensures fresh(w) && w.Valid()
    ensures w.lost != {} && w.listeners != w.workers.Values
  {
    var observation := Observation(Some(CollidingLines(id)), {});
    CollidingArguments(id);
    assert |CollidingLines(id)[0]| >= 2 && |CollidingLines(id)[1]| >= 2;
    assert !observation.HasLoneBrace();
    var panicked;
    ghost var history;
    w, panicked, history := Wsl2Watcher([observation]);
    RecordedTwice(history[0], observation);
    assert OpenedIn(history, 0) == Opened(Without(history[0].vmids, []), {});
    OpenedOnceIff(history[0].vmids, [], {});
  }

  /** Arguments that stripping does not keep apart are recorded with a repetition. */
  lemma RecordedTwice(snapshot: Snapshot, observation: Observation)
    requires Records(snapshot, observation) && !StripsApart(observation.Arguments())
    ensures exists v :: Repeats(snapshot.vmids, v)
  {
    var order :| StripsAll(snapshot.vmids, order, observation.Arguments());
    DistinctIffApart(snapshot.vmids, order, observation.Arguments());
    var i, j :| 0 <= i < j < |snapshot.vmids| && snapshot.vmids[i] == snapshot.vmids[j];
    assert Repeats(snapshot.vmids, snapshot.vmids[i]);
  }
}
