/** Finding the running WSL2 virtual machines from the command lines of their host processes. */
module Wsl2 {
  import opened Bytes
  import opened Wrappers

  /** A string as the program slices it: by bytes. */
  type Text = seq<byte>

  const SPACE: byte := 0x20
  const OPEN_BRACE: byte := 0x7B
  const CLOSE_BRACE: byte := 0x7D
  const CLOSE_BRACKET: byte := 0x5D

  predicate NoDuplicates<T(==)>(s: seq<T>) {
    forall i, j :: 0 <= i < j < |s| ==> s[i] != s[j]
  }

  /** `Texts.Split` on a single space. */
  function Split(line: Text): (args: seq<Text>)
    ensures |args| > 0
  {
    if line == [] then [[]]
    else
      var rest := Split(line[1..]);
      if line[0] == SPACE then [[]] + rest else [[line[0]] + rest[0]] + rest[1..]
  }

  function Join(args: seq<Text>): Text {
    if args == [] then [] else if |args| == 1 then args[0] else args[0] + [SPACE] + Join(args[1..])
  }

  /** Splitting loses nothing, and no argument holds a space. */
  lemma {:induction false} SplitJoin(line: Text)
    ensures Join(Split(line)) == line
    ensures forall i :: 0 <= i < |Split(line)| ==> 0x20 !in Split(line)[i]
  {
    if line != [] {
      SplitJoin(line[1..]);
      var rest := Split(line[1..]);
      assert line == [line[0]] + line[1..];
      if line[0] == SPACE {
        assert ([[]] + rest)[1..] == rest;
      } else if |rest| > 1 {
        assert ([[line[0]] + rest[0]] + rest[1..])[1..] == rest[1..];
      }
    }
  }

  /** The last argument with a brace in it, which is where wslhost.exe puts its VM's id. */
  function VMArgument(args: seq<Text>): (arg: Option<Text>)
    ensures arg.Some? ==> arg.value in args && OPEN_BRACE in arg.value
  {
    if args == [] then None
    else if OPEN_BRACE in args[|args| - 1] then Some(args[|args| - 1])
    else VMArgument(args[..|args| - 1])
  }

  /** Argument i holds a brace, byte 0x7B, and no later one does. */
  predicate LastWithBrace(args: seq<Text>, i: nat) {
    i < |args| && 0x7B in args[i] && forall j :: i < j < |args| ==> 0x7B !in args[j]
  }

  /** The VM argument is the last one with a brace, and there is none exactly if no argument holds a brace. */
  lemma {:induction false} VMArgumentIs(args: seq<Text>)
    ensures forall i: nat :: LastWithBrace(args, i) ==> VMArgument(args) == Some(args[i])
    ensures VMArgument(args).Some? ==> exists i: nat :: LastWithBrace(args, i)
    ensures VMArgument(args).None? <==> forall j :: 0 <= j < |args| ==> 0x7B !in args[j]
  {
    if args != [] {
      var front := args[..|args| - 1];
      VMArgumentIs(front);
      if 0x7B in args[|args| - 1] {
        assert LastWithBrace(args, |args| - 1);
      } else {
        forall i: nat ensures LastWithBrace(args, i) <==> LastWithBrace(front, i) {
        }
        assert forall j :: 0 <= j < |front| ==> front[j] == args[j];
      }
    }
  }

  /** The distinct VM arguments of all processes. */
  function VMArguments(lines: seq<Text>): set<Text> {
    set line | line in lines && VMArgument(Split(line)).Some? :: VMArgument(Split(line)).value
  }

  /** Drops the first and the last byte. */
  function Strip(arg: Text): Text
    requires |arg| >= 2
  {
    arg[1..|arg| - 1]
  }

  /** What stripping leaves: everything between the first and the last byte, whatever they are. */
  lemma StripIs(first: byte, id: Text, last: byte)
    ensures Strip([first] + id + [last]) == id
  {
  }

  predicate Braced(arg: Text) {
    |arg| >= 2 && arg[0] == OPEN_BRACE && arg[|arg| - 1] == CLOSE_BRACE
  }

  datatype Scan = VMIDs(ids: seq<Text>) | Panicked

  /** The backward search of one command line's arguments. */
  method FindVMArgument(args: seq<Text>) returns (arg: Option<Text>)
    ensures arg == VMArgument(args)
    ensures arg.Some? <==> exists i: nat :: i < |args| && 0x7B in args[i]
    ensures forall i: nat :: i < |args| && 0x7B in args[i] && (forall j :: i < j < |args| ==> 0x7B !in args[j]) ==>
              arg == Some(args[i])
  {
    var i := |args|;
    assert args[..i] == args;
    while i > 0
      invariant 0 <= i <= |args|
      invariant VMArgument(args) == VMArgument(args[..i])
      invariant forall j :: i <= j < |args| ==> 0x7B !in args[j]
    {
      i := i - 1;
      assert args[..i + 1][..i] == args[..i];
      if OPEN_BRACE in args[i] {
        return Some(args[i]);
      }
    }
    return None;
  }

  /** The VM arguments of all processes are, line by line, the last word with a brace. */
  lemma VMArgumentsAre(lines: seq<Text>, arg: Text)
    ensures arg in VMArguments(lines) <==>
            exists k, i: nat :: 0 <= k < |lines| && LastWithBrace(Split(lines[k]), i) && arg == Split(lines[k])[i]
  {
    if arg in VMArguments(lines) {
      var line :| line in lines && VMArgument(Split(line)) == Some(arg);
      var k :| 0 <= k < |lines| && lines[k] == line;
      VMArgumentIs(Split(lines[k]));
      var i: nat :| LastWithBrace(Split(lines[k]), i);
      assert arg == Split(lines[k])[i];
    }
    forall k, i: nat | 0 <= k < |lines| && LastWithBrace(Split(lines[k]), i) && arg == Split(lines[k])[i]
      ensures arg in VMArguments(lines)
    {
      VMArgumentIs(Split(lines[k]));
      assert lines[k] in lines;
    }
  }

  method CollectArguments(lines: seq<Text>) returns (guids: set<Text>)
    ensures guids == VMArguments(lines)
  {
    guids := {};
    for k := 0 to |lines|
      invariant guids == VMArguments(lines[..k])
    {
      assert lines[..k + 1] == lines[..k] + [lines[k]];
      var arg := FindVMArgument(Split(lines[k]));
      if arg.Some? {
        guids := guids + {arg.value};
      }
    }
    assert lines[..|lines|] == lines;
  }

  /** The ids come from the arguments one for one, in the order the map happened to be walked. */
  ghost predicate StripsAll(ids: seq<Text>, order: seq<Text>, args: set<Text>) {
    && |ids| == |order| && NoDuplicates(order)
    && (forall arg :: arg in order <==> arg in args)
    && (forall i :: 0 <= i < |ids| ==> |order[i]| >= 2 && ids[i] == Strip(order[i]))
  }

  /** No two distinct arguments agree between their first and last characters. */
  predicate StripsApart(args: set<Text>) {
    forall a, b | a in args && b in args && |a| >= 2 && |b| >= 2 && Strip(a) == Strip(b) :: a == b
  }

  /** So the ids are free of duplicates exactly when stripping keeps the arguments apart. */
  lemma DistinctIffApart(ids: seq<Text>, order: seq<Text>, args: set<Text>)
    requires StripsAll(ids, order, args)
    ensures NoDuplicates(ids) <==> StripsApart(args)
  {
    if NoDuplicates(ids) {
      forall a, b | a in args && b in args && |a| >= 2 && |b| >= 2 && Strip(a) == Strip(b) ensures a == b {
        assert a in order && b in order;
        var i :| 0 <= i < |order| && order[i] == a;
        var j :| 0 <= j < |order| && order[j] == b;
        assert ids[i] == ids[j];
      }
    } else {
      var i, j :| 0 <= i < j < |ids| && ids[i] == ids[j];
      assert order[i] in order && order[j] in order;
    }
  }

  lemma BracedStripsApart(args: set<Text>)
    requires forall arg <- args :: Braced(arg)
    ensures StripsApart(args)
  {
    forall a, b | a in args && b in args && |a| >= 2 && |b| >= 2 && Strip(a) == Strip(b) ensures a == b {
      assert a == [OPEN_BRACE] + Strip(a) + [CLOSE_BRACE] && b == [OPEN_BRACE] + Strip(b) + [CLOSE_BRACE];
    }
  }

  /**
   The ids of all VMs, in some order; None for `lines` is a failed query, which reads as no VM at all. Each
   distinct argument yields one id; slicing a lone brace panics. The ids are free of duplicates
   exactly when stripping keeps the arguments apart, as it does when all are of the form `{...}`.
   */
  method GetVMIDs(lines: Option<seq<Text>>) returns (scan: Scan)
    ensures lines.None? ==> scan == VMIDs([])
    ensures lines.Some? ==> (scan.Panicked? <==> exists arg <- VMArguments(lines.value) :: |arg| < 2)
    ensures lines.Some? && scan.VMIDs? ==> exists order :: StripsAll(scan.ids, order, VMArguments(lines.value))
    ensures lines.Some? && scan.VMIDs? ==> (NoDuplicates(scan.ids) <==> StripsApart(VMArguments(lines.value)))
    ensures lines.Some? && (forall arg <- VMArguments(lines.value) :: Braced(arg)) ==>
              scan.VMIDs? && NoDuplicates(scan.ids)
  {
    if lines.None? {
      return VMIDs([]);
    }
    var guids := CollectArguments(lines.value);
    var todo := guids;
    var results: seq<Text> := [];
    ghost var order: seq<Text> := [];
    while todo != {}
      invariant todo <= guids
      invariant StripsAll(results, order, guids - todo)
      decreases todo
    {
      var k :| k in todo;
      if |k| < 2 {
        return Panicked;
      }
      results := results + [Strip(k)];
      order := order + [k];
      todo := todo - {k};
    }
    assert guids - todo == guids;
    DistinctIffApart(results, order, guids);
    if forall arg <- guids :: Braced(arg) {
      BracedStripsApart(guids);
    }
    forall arg | arg in guids ensures |arg| >= 2 {
      assert arg in order;
    }
    return VMIDs(results);
  }

  /** A word without a space splits into itself. */
  lemma {:induction false} SplitWord(word: Text)
    requires SPACE !in word
    ensures Split(word) == [word]
  {
    if word != [] {
      SplitWord(word[1..]);
      assert word == [word[0]] + word[1..];
    }
  }

  /** Two command lines that are the same id in different brackets. */
  function CollidingLines(id: Text): seq<Text> {
    [[OPEN_BRACE] + id + [CLOSE_BRACE], [OPEN_BRACE] + id + [CLOSE_BRACKET]]
  }

  /** A single word with a brace in it is its own VM argument. */
  lemma WordIsArgument(word: Text)
    requires SPACE !in word && OPEN_BRACE in word
    ensures VMArgument(Split(word)) == Some(word)
  {
    SplitWord(word);
    assert [word][|[word]| - 1] == word;
  }

  /** Whatever the id, both lines are arguments, neither is a lone brace, and stripping does not tell them apart. */
  lemma CollidingArguments(id: Text)
    requires SPACE !in id
    ensures var args := VMArguments(CollidingLines(id));
            args == {CollidingLines(id)[0], CollidingLines(id)[1]} && !StripsApart(args)
  {
    var a, b := CollidingLines(id)[0], CollidingLines(id)[1];
    assert a[0] == b[0] == OPEN_BRACE;
    WordIsArgument(a);
    WordIsArgument(b);
    assert a in CollidingLines(id) && b in CollidingLines(id);
    assert Strip(a) == id == Strip(b);
    assert a[|a| - 1] != b[|b| - 1];
  }

  /** On these the scan does not panic and lists an id twice. */
  method CollidingScan(id: Text) returns (scan: Scan)
    requires SPACE !in id
    ensures scan.VMIDs? && !NoDuplicates(scan.ids)
    ensures forall v :: v in scan.ids ==> v == id
    ensures CollidingLines(id) == [[0x7B] + id + [0x7D], [0x7B] + id + [0x5D]]
  {
    CollidingArguments(id);
    scan := GetVMIDs(Some(CollidingLines(id)));
    ghost var order :| StripsAll(scan.ids, order, VMArguments(CollidingLines(id)));
    forall v | v in scan.ids ensures v == id {
      var i :| 0 <= i < |scan.ids| && scan.ids[i] == v;
      assert order[i] in order;
    }
  }
}
