/** The flame graph's totals and tree (tools/viz/js/flame.js). A node is known by its path, the names
    from the root down to it. */
module Flame {
  import opened Collections
  import opened Folded
  import opened Strings

  // ---- totals of a parsed profile ----

  function Total(lines: seq<Line>): real {
    if lines == [] then 0.0 else Total(lines[..|lines| - 1]) + lines[|lines| - 1].value
  }

  /** What the totals are of. */
  datatype Aspect = Processes | Threads

  function TaskOf(l: Line, a: Aspect): Option<Task> {
    if a.Processes? then l.p else l.t
  }

  /** Of a thread, its entry also says the number of its line's process, if the line has one. */
  function OwnerOf(l: Line, a: Aspect): Option<Option<real>> {
    if a.Threads? && l.p.Some? then Some(l.p.value.num) else None
  }

  predicate Has(l: Line, a: Aspect, num: Option<real>) {
    TaskOf(l, a).Some? && TaskOf(l, a).value.num == num
  }

  /** What the lines of one process, or of one thread, add up to. */
  function TotalOf(lines: seq<Line>, a: Aspect, num: Option<real>): real {
    if lines == [] then 0.0
    else
      var l := lines[|lines| - 1];
      TotalOf(lines[..|lines| - 1], a, num) + if Has(l, a, num) then l.value else 0.0
  }

  /** The first line of a task. */
  ghost predicate FirstOf(lines: seq<Line>, a: Aspect, num: Option<real>, i: nat) {
    i < |lines| && Has(lines[i], a, num) && forall j :: 0 <= j < i ==> !Has(lines[j], a, num)
  }

  datatype Sum = Sum(comm: string, owner: Option<Option<real>>, total: real)

  /** An entry has its task's total, and its name and process from the task's first line. */
  ghost predicate EntryOf(lines: seq<Line>, a: Aspect, num: Option<real>, entry: Sum) {
    && entry.total == TotalOf(lines, a, num)
    && exists i: nat :: FirstOf(lines, a, num, i) && entry.comm == TaskOf(lines[i], a).value.comm
                        && entry.owner == OwnerOf(lines[i], a)
  }

  ghost predicate Absent(lines: seq<Line>, a: Aspect, num: Option<real>) {
    forall i :: 0 <= i < |lines| ==> !Has(lines[i], a, num)
  }

  /** `sums` holds exactly the entries of the tasks that occur. */
  ghost predicate Totals(lines: seq<Line>, a: Aspect, sums: map<Option<real>, Sum>) {
    && (forall num :: num in sums ==> EntryOf(lines, a, num, sums[num]))
    && (forall num :: num !in sums ==> Absent(lines, a, num))
  }

  /** The lines that count for a process, or for a thread. */
  lemma {:induction false} TotalsAreOfTheirLines(lines: seq<Line>, l: Line, num: Option<real>)
    ensures TotalOf([], Processes, num) == TotalOf([], Threads, num) == 0.0
    ensures TotalOf(lines + [l], Processes, num) ==
            TotalOf(lines, Processes, num) + if l.p.Some? && l.p.value.num == num then l.value else 0.0
    ensures TotalOf(lines + [l], Threads, num) ==
            TotalOf(lines, Threads, num) + if l.t.Some? && l.t.value.num == num then l.value else 0.0
  {
    assert (lines + [l])[..|lines|] == lines;
  }

  /** A process is named by its first line; so is a thread, which is also given that line's process. */
  lemma {:induction false} EntriesAreNamedFirst(p: Profile, num: Option<real>)
    requires AddsUp(p)
    ensures num in p.pids <==> exists i :: 0 <= i < |p.lines| && p.lines[i].p.Some? && p.lines[i].p.value.num == num
    ensures num in p.tids <==> exists i :: 0 <= i < |p.lines| && p.lines[i].t.Some? && p.lines[i].t.value.num == num
    ensures num in p.pids ==>
              exists i: nat :: FirstOf(p.lines, Processes, num, i)
                        && p.lines[i].p == Some(Task(num, p.pids[num].comm)) && p.pids[num].owner == None
    ensures num in p.tids ==>
              exists i: nat :: FirstOf(p.lines, Threads, num, i) && p.lines[i].t == Some(Task(num, p.tids[num].comm))
                        && p.tids[num].owner == if p.lines[i].p.Some? then Some(p.lines[i].p.value.num) else None
  {
    if num in p.pids {
      assert EntryOf(p.lines, Processes, num, p.pids[num]);
      var i: nat :| FirstOf(p.lines, Processes, num, i) && p.pids[num].comm == TaskOf(p.lines[i], Processes).value.comm
                    && p.pids[num].owner == OwnerOf(p.lines[i], Processes);
    } else {
      assert Absent(p.lines, Processes, num);
    }
    if num in p.tids {
      assert EntryOf(p.lines, Threads, num, p.tids[num]);
      var i: nat :| FirstOf(p.lines, Threads, num, i) && p.tids[num].comm == TaskOf(p.lines[i], Threads).value.comm
                    && p.tids[num].owner == OwnerOf(p.lines[i], Threads);
    } else {
      assert Absent(p.lines, Threads, num);
    }
    assert forall l: Line :: Has(l, Processes, num) <==> l.p.Some? && l.p.value.num == num;
    assert forall l: Line :: Has(l, Threads, num) <==> l.t.Some? && l.t.value.num == num;
  }

  lemma {:induction false} AbsentIsNothing(lines: seq<Line>, a: Aspect, num: Option<real>)
    requires Absent(lines, a, num)
    ensures TotalOf(lines, a, num) == 0.0
  {
    if lines != [] {
      AbsentIsNothing(lines[..|lines| - 1], a, num);
    }
  }

  /** One more line of another task. */
  lemma {:induction false} EntryKept(
      lines: seq<Line>, l: Line, a: Aspect, num: Option<real>, entry: Sum)
    requires EntryOf(lines, a, num, entry)
    ensures EntryOf(lines + [l], a, num, entry.(total := entry.total + if Has(l, a, num) then l.value else 0.0))
  {
    var more := lines + [l];
    assert more[..|lines|] == lines;
    var i: nat :| FirstOf(lines, a, num, i) && entry.comm == TaskOf(lines[i], a).value.comm
                  && entry.owner == OwnerOf(lines[i], a);
    assert FirstOf(more, a, num, i) && more[i] == lines[i];
  }

  lemma {:induction false} EntryBegun(lines: seq<Line>, l: Line, a: Aspect, num: Option<real>)
    requires Absent(lines, a, num) && Has(l, a, num)
    ensures EntryOf(lines + [l], a, num, Sum(TaskOf(l, a).value.comm, OwnerOf(l, a), l.value))
  {
    var more := lines + [l];
    assert more[..|lines|] == lines && more[|lines|] == l;
    AbsentIsNothing(lines, a, num);
    assert FirstOf(more, a, num, |lines|);
  }

  /** Adds a line to its task's entry, which is created when the task is new. */
  method Account(sums: map<Option<real>, Sum>, l: Line, a: Aspect, ghost lines: seq<Line>)
    returns (out: map<Option<real>, Sum>)
    requires Totals(lines, a, sums)
    ensures Totals(lines + [l], a, out)
  {
    out := sums;
    var task := TaskOf(l, a);
    if task.Some? {
      var num := task.value.num;
      if num !in out {
        out := out[num := Sum(task.value.comm, OwnerOf(l, a), 0.0)];
      }
      out := out[num := out[num].(total := out[num].total + l.value)];
    }
    forall num
      ensures num in out ==> EntryOf(lines + [l], a, num, out[num])
      ensures num !in out ==> Absent(lines + [l], a, num)
    {
      if num in sums {
        EntryKept(lines, l, a, num, sums[num]);
      } else if num in out {
        EntryBegun(lines, l, a, num);
      }
    }
  }

  /** What parsing has made of the text so far. */
  datatype Profile = Profile(lines: seq<Line>, total: real, pids: map<Option<real>, Sum>, tids: map<Option<real>, Sum>)

  ghost predicate AddsUp(p: Profile) {
    p.total == Total(p.lines) && Totals(p.lines, Processes, p.pids) && Totals(p.lines, Threads, p.tids)
  }

  method AddRaw(p: Profile, raw: string, number: Numeral) returns (out: Profile)
    requires AddsUp(p)
    ensures AddsUp(out) && out.lines == p.lines + Yield(raw, number)
  {
    var parsed := ParseLine(raw, number);
    if parsed.None? {
      assert p.lines + [] == p.lines;
      return p;
    }
    var l := parsed.value;
    var pids := Account(p.pids, l, Processes, p.lines);
    var tids := Account(p.tids, l, Threads, p.lines);
    assert (p.lines + [l])[..|p.lines|] == p.lines;
    out := Profile(p.lines + [l], p.total + l.value, pids, tids);
  }

  /** `parseFolded`: the parsed lines in order, the total, and the entries of processes and threads. */
  method ParseFolded(text: string, number: Numeral) returns (p: Profile)
    ensures AddsUp(p)
    ensures p.lines == if text == "" then [] else ParseLines(Split(text, '\n'), number)
  {
    p := Profile([], 0.0, map[], map[]);
    if text == "" {
      return;
    }
    var raws := Split(text, '\n');
    for i := 0 to |raws|
      invariant AddsUp(p) && p.lines == ParseLines(raws[..i], number)
    {
      ParseLinesAppend(raws[..i], raws[i], number);
      PrefixGrows(raws, i);
      p := AddRaw(p, raws[i], number);
    }
    assert raws[..|raws|] == raws;
  }

  // ---- the tree ----

  type Path = seq<string>

  datatype Node = Node(value: real, self: real)

  datatype Filter = Filter(pid: Option<real>, tid: Option<real>)

  /** No filter, or 0, lets everything pass. */
  predicate Passes(want: Option<real>, task: Option<Task>) {
    want.None? || want.value == 0.0 || (task.Some? && task.value.num == want)
  }

  predicate InFilter(f: Filter, l: Line) {
    Passes(f.pid, l.p) && Passes(f.tid, l.t)
  }

  function Filtered(lines: seq<Line>, f: Filter): seq<Line> {
    if lines == [] then []
    else
      var l := lines[|lines| - 1];
      Filtered(lines[..|lines| - 1], f) + if InFilter(f, l) then [l] else []
  }

  /** What passes a filter: the lines of the process asked for, and of the thread asked for, in order. */
  lemma {:induction false} FilteredAre(lines: seq<Line>, f: Filter, l: Line)
    ensures Filtered([], f) == []
    ensures Filtered(lines + [l], f) ==
            if && (f.pid.None? || f.pid == Some(0.0) || (l.p.Some? && l.p.value.num == f.pid))
               && (f.tid.None? || f.tid == Some(0.0) || (l.t.Some? && l.t.value.num == f.tid))
            then Filtered(lines, f) + [l] else Filtered(lines, f)
  {
    assert (lines + [l])[..|lines|] == lines;
  }

  predicate IsPrefix(path: Path, frames: Path) {
    |path| <= |frames| && frames[..|path|] == path
  }

  /** The lines below a node add up to its value; those that end there, to its own. */
  function ValueAt(lines: seq<Line>, path: Path): real {
    if lines == [] then 0.0
    else
      var l := lines[|lines| - 1];
      ValueAt(lines[..|lines| - 1], path) + if IsPrefix(path, l.frames) then l.value else 0.0
  }

  function SelfAt(lines: seq<Line>, path: Path): real {
    if lines == [] then 0.0
    else
      var l := lines[|lines| - 1];
      SelfAt(lines[..|lines| - 1], path) + if path == l.frames then l.value else 0.0
  }

  /** The root, and every prefix of a line. */
  predicate Occurs(lines: seq<Line>, path: Path) {
    path == [] || exists i :: 0 <= i < |lines| && IsPrefix(path, lines[i].frames)
  }

  /** The tree of some lines: exactly their paths, each with its value and its own share. */
  ghost predicate IsTree(nodes: map<Path, Node>, lines: seq<Line>) {
    && (forall path :: path in nodes <==> Occurs(lines, path))
    && (forall path :: path in nodes ==> nodes[path] == Node(ValueAt(lines, path), SelfAt(lines, path)))
  }

  function ValueIn(nodes: map<Path, Node>, path: Path): Node {
    if path in nodes then nodes[path] else Node(0.0, 0.0)
  }

  /** The tree while a line is entered: the first `j` names below the root have been visited. */
  ghost predicate Entered(before: map<Path, Node>, nodes: map<Path, Node>, l: Line, j: nat) {
    && (forall path :: path in nodes <==> path in before || (IsPrefix(path, l.frames) && |path| <= j))
    && (forall path :: path in nodes ==>
          nodes[path] == Node(ValueIn(before, path).value
                              + (if IsPrefix(path, l.frames) && |path| <= j then l.value else 0.0),
                              ValueIn(before, path).self))
  }

  /** The tree with one line entered. */
  ghost predicate LineAdded(before: map<Path, Node>, nodes: map<Path, Node>, l: Line) {
    && (forall path :: path in nodes <==> path in before || IsPrefix(path, l.frames))
    && (forall path :: path in nodes ==>
          nodes[path] == Node(ValueIn(before, path).value + (if IsPrefix(path, l.frames) then l.value else 0.0),
                              ValueIn(before, path).self + (if path == l.frames then l.value else 0.0)))
  }

  /** Enters one line: the value is added along its path, and at the end to the node's own. */
  method EnterLine(before: map<Path, Node>, l: Line) returns (nodes: map<Path, Node>)
    requires [] in before
    ensures LineAdded(before, nodes, l)
  {
    RootEntered(before, l);
    nodes := before[[] := Node(before[[]].value + l.value, before[[]].self)];
    var path: Path := [];
    for j := 0 to |l.frames|
      invariant path == l.frames[..j] && path in nodes
      invariant Entered(before, nodes, l, j)
    {
      var child := path + [l.frames[j]];
      assert child == l.frames[..j + 1];
      EnteredStep(before, nodes, l, j, child);
      nodes := VisitChild(nodes, child, l.value);
      path := child;
    }
    assert path == l.frames;
    EndEntered(before, nodes, l, path);
    nodes := nodes[path := Node(nodes[path].value, nodes[path].self + l.value)];
  }

  method VisitChild(nodes: map<Path, Node>, child: Path, value: real) returns (out: map<Path, Node>)
    ensures out == Visited(nodes, child, value)
  {
    out := nodes;
    if child !in nodes {
      out := out[child := Node(0.0, 0.0)];
    }
    out := out[child := Node(out[child].value + value, out[child].self)];
  }

  lemma {:induction false} RootEntered(before: map<Path, Node>, l: Line)
    requires [] in before
    ensures Entered(before, before[[] := Node(before[[]].value + l.value, before[[]].self)], l, 0)
  {
    assert forall path: Path :: IsPrefix(path, l.frames) && |path| <= 0 <==> path == [];
  }

  lemma {:induction false} EndEntered(before: map<Path, Node>, nodes: map<Path, Node>, l: Line, path: Path)
    requires Entered(before, nodes, l, |l.frames|) && path == l.frames && path in nodes
    ensures LineAdded(before, nodes[path := Node(nodes[path].value, nodes[path].self + l.value)], l)
  {
  }

  /** A node visited on the way down: created if it is missing, its value increased. */
  function Visited(nodes: map<Path, Node>, child: Path, value: real): map<Path, Node> {
    nodes[child := Node(ValueIn(nodes, child).value + value, ValueIn(nodes, child).self)]
  }

  lemma {:induction false} EnteredStep(
      before: map<Path, Node>, nodes: map<Path, Node>, l: Line, j: nat, child: Path)
    requires j < |l.frames| && child == l.frames[..j + 1] && Entered(before, nodes, l, j)
    ensures Entered(before, Visited(nodes, child, l.value), l, j + 1)
  {
    var next := Visited(nodes, child, l.value);
    forall path: Path
      ensures path in next <==> path in before || (IsPrefix(path, l.frames) && |path| <= j + 1)
      ensures path in next ==>
                next[path] == Node(ValueIn(before, path).value
                                   + (if IsPrefix(path, l.frames) && |path| <= j + 1 then l.value else 0.0),
                                   ValueIn(before, path).self)
    {
      assert IsPrefix(path, l.frames) && |path| == j + 1 <==> path == child;
    }
  }

  lemma {:induction false} LineEntered(
      before: map<Path, Node>, nodes: map<Path, Node>, l: Line, lines: seq<Line>)
    requires IsTree(before, lines)
    requires LineAdded(before, nodes, l)
    ensures IsTree(nodes, lines + [l])
  {
    var more := lines + [l];
    assert more[..|lines|] == lines;
    forall path: Path
      ensures path in nodes <==> Occurs(more, path)
      ensures path in nodes ==> nodes[path] == Node(ValueAt(more, path), SelfAt(more, path))
    {
      OccursOneMore(lines, l, path);
      if path !in before { AbsentIsZero(lines, path); }
    }
  }

  lemma {:induction false} OccursOneMore(lines: seq<Line>, l: Line, path: Path)
    ensures Occurs(lines + [l], path) <==> Occurs(lines, path) || IsPrefix(path, l.frames)
  {
    var more := lines + [l];
    if IsPrefix(path, l.frames) {
      assert IsPrefix(path, more[|lines|].frames);
    }
    if Occurs(lines, path) && path != [] {
      var i :| 0 <= i < |lines| && IsPrefix(path, lines[i].frames);
      assert IsPrefix(path, more[i].frames);
    }
  }

  lemma {:induction false} AbsentIsZero(lines: seq<Line>, path: Path)
    requires !Occurs(lines, path)
    ensures ValueAt(lines, path) == 0.0 && SelfAt(lines, path) == 0.0
  {
    if lines != [] {
      var n := |lines| - 1;
      assert !IsPrefix(path, lines[n].frames);
      assert forall i :: 0 <= i < n ==> lines[..n][i] == lines[i];
      AbsentIsZero(lines[..n], path);
    }
  }

  /** `_buildTree`: the tree of the lines that pass the filter. */
  method BuildTree(lines: seq<Line>, f: Filter) returns (nodes: map<Path, Node>)
    ensures IsTree(nodes, Filtered(lines, f))
  {
    nodes := map[[] := Node(0.0, 0.0)];
    for i := 0 to |lines|
      invariant IsTree(nodes, Filtered(lines[..i], f))
    {
      FilteredOneMore(lines, i, f);
      if InFilter(f, lines[i]) {
        ghost var before := nodes;
        assert Occurs(Filtered(lines[..i], f), []);
        nodes := EnterLine(nodes, lines[i]);
        LineEntered(before, nodes, lines[i], Filtered(lines[..i], f));
      }
    }
    assert lines[..|lines|] == lines;
  }

  lemma {:induction false} FilteredOneMore(lines: seq<Line>, i: nat, f: Filter)
    requires i < |lines|
    ensures Filtered(lines[..i + 1], f) ==
            if InFilter(f, lines[i]) then Filtered(lines[..i], f) + [lines[i]] else Filtered(lines[..i], f)
  {
    assert lines[..i + 1][..i] == lines[..i];
  }

  // ---- what the tree means ----

  function ValueOfChildren(lines: seq<Line>, path: Path, names: seq<string>): real {
    if names == [] then 0.0
    else ValueOfChildren(lines, path, names[..|names| - 1]) + ValueAt(lines, path + [names[|names| - 1]])
  }

  /** The names of all children of a node, once each. */
  ghost predicate ChildrenOf(lines: seq<Line>, path: Path, names: seq<string>) {
    && (forall i, j :: 0 <= i < j < |names| ==> names[i] != names[j])
    && (forall i :: 0 <= i < |lines| && IsPrefix(path, lines[i].frames) && |path| < |lines[i].frames| ==>
          lines[i].frames[|path|] in names)
  }

  /** What one line adds to the children of a node. */
  lemma {:induction false} ShareOfChildren(lines: seq<Line>, l: Line, path: Path, names: seq<string>)
    requires forall i, j :: 0 <= i < j < |names| ==> names[i] != names[j]
    ensures ValueOfChildren(lines + [l], path, names) == ValueOfChildren(lines, path, names)
      + if IsPrefix(path, l.frames) && |path| < |l.frames| && l.frames[|path|] in names then l.value else 0.0
  {
    if names != [] {
      var n := |names| - 1;
      ShareOfChildren(lines, l, path, names[..n]);
      ValuesOneMore(lines, l, path + [names[n]]);
      ChildOnThePath(path, l.frames, names[n]);
      assert names == names[..n] + [names[n]];
      assert names[n] !in names[..n];
    }
  }

  lemma {:induction false} ChildOnThePath(path: Path, frames: Path, name: string)
    ensures IsPrefix(path + [name], frames) <==>
            IsPrefix(path, frames) && |path| < |frames| && frames[|path|] == name
  {
    if |path| < |frames| {
      assert frames[..|path| + 1] == frames[..|path|] + [frames[|path|]];
    }
  }

  /** A node's value is its own share and its children's values, nothing more, nothing less. */
  lemma {:induction false} ValueIsSelfAndChildren(lines: seq<Line>, path: Path, names: seq<string>)
    requires ChildrenOf(lines, path, names)
    ensures ValueAt(lines, path) == SelfAt(lines, path) + ValueOfChildren(lines, path, names)
    decreases |lines|
  {
    if lines == [] {
      NoChildren(path, names);
    } else {
      var before, l := lines[..|lines| - 1], lines[|lines| - 1];
      assert lines == before + [l];
      FewerChildren(before, l, path, names);
      ValueIsSelfAndChildren(before, path, names);
      ShareOfChildren(before, l, path, names);
      ValuesOneMore(before, l, path);
      assert IsPrefix(path, l.frames) && |path| == |l.frames| <==> path == l.frames;
    }
  }

  lemma {:induction false} FewerChildren(lines: seq<Line>, l: Line, path: Path, names: seq<string>)
    requires ChildrenOf(lines + [l], path, names)
    ensures ChildrenOf(lines, path, names)
    ensures IsPrefix(path, l.frames) && |path| < |l.frames| ==> l.frames[|path|] in names
  {
    var more := lines + [l];
    assert more[|lines|] == l && forall i :: 0 <= i < |lines| ==> more[i] == lines[i];
  }

  lemma {:induction false} ValuesOneMore(lines: seq<Line>, l: Line, path: Path)
    ensures ValueAt(lines + [l], path) == ValueAt(lines, path) + if IsPrefix(path, l.frames) then l.value else 0.0
    ensures SelfAt(lines + [l], path) == SelfAt(lines, path) + if path == l.frames then l.value else 0.0
  {
    assert (lines + [l])[..|lines|] == lines;
  }

  lemma {:induction false} NoChildren(path: Path, names: seq<string>)
    ensures ValueOfChildren([], path, names) == 0.0
  {
    if names != [] {
      NoChildren(path, names[..|names| - 1]);
    }
  }

  /** The root's value is the total of what passed the filter. */
  lemma {:induction false} RootIsTotal(lines: seq<Line>)
    ensures ValueAt(lines, []) == Total(lines)
  {
    if lines != [] {
      RootIsTotal(lines[..|lines| - 1]);
    }
  }
}
