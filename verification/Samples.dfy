/** How the deep collector's samples become folded stacks (src/collect/deep_collector.cpp,
    src/collect/ebpf_manager.cpp), and what reading the profile back gives. */
module Samples {
  import opened Collections
  import opened Strings
  import opened Folded

  // ---- names ----

  /** A name as far as its terminating zero. */
  function Cut(raw: string): string {
    if raw == "" || raw[0] == '\0' then "" else [raw[0]] + Cut(raw[1..])
  }

  /** What the kernel's task names are rid of, and what symbols are. */
  function CleanComm(c: char): char {
    if c == ';' || c == '/' || c == ' ' || c == '\t' then '_' else c
  }

  function CleanSym(c: char): char {
    if c == ';' || c == ' ' || c == '\t' then '_' else c
  }

  function CommOf(raw: string): string {
    Replaced(Cut(raw), CleanComm)
  }

  lemma {:induction false} CutIsPrefix(raw: string, n: nat)
    requires n <= |raw| && (forall i :: 0 <= i < n ==> raw[i] != '\0') && (n < |raw| ==> raw[n] == '\0')
    ensures Cut(raw) == raw[..n]
  {
    if n > 0 {
      CutIsPrefix(raw[1..], n - 1);
      assert raw[..n] == [raw[0]] + raw[1..][..n - 1];
    }
  }

  /** `out` is `raw` with an underscore for each of the `bad` characters. */
  ghost predicate Sanitised(raw: string, bad: set<char>, out: string) {
    |out| == |raw| && forall k :: 0 <= k < |raw| ==> out[k] == if raw[k] in bad then '_' else raw[k]
  }

  lemma {:induction false} ReplacedIsSanitised(raw: string)
    ensures Sanitised(raw, {';', '/', ' ', '\t'}, Replaced(raw, CleanComm))
    ensures Sanitised(raw, {';', ' ', '\t'}, Replaced(raw, CleanSym))
  {
    assert forall k :: 0 <= k < |raw| ==> Replaced(raw, CleanComm)[k] == CleanComm(raw[k]);
    assert forall k :: 0 <= k < |raw| ==> Replaced(raw, CleanSym)[k] == CleanSym(raw[k]);
  }

  /** SanitizeCommStr: the name as far as its terminating zero, sanitised. */
  method SanitizeComm(raw: string) returns (s: string)
    ensures s == CommOf(raw)
    ensures |s| <= |raw| && Free(raw[..|s|], '\0') && (|s| < |raw| ==> raw[|s|] == '\0')
    ensures Sanitised(raw[..|s|], {';', '/', ' ', '\t'}, s)
  {
    s := "";
    var i := 0;
    while i < |raw| && raw[i] != '\0'
      invariant i <= |raw| && (forall j :: 0 <= j < i ==> raw[j] != '\0')
      invariant s == Replaced(raw[..i], CleanComm)
    {
      var c := raw[i];
      assert raw[..i + 1] == raw[..i] + [c];
      assert Replaced(raw[..i + 1], CleanComm) == Replaced(raw[..i], CleanComm) + [CleanComm(c)];
      s := s + [if c == ';' || c == '/' || c == ' ' || c == '\t' then '_' else c];
      i := i + 1;
    }
    CutIsPrefix(raw, i);
    ReplacedIsSanitised(raw[..i]);
  }

  /** The symbols of a stack, root first; `ips` has the leaf first, and zeros are no addresses. */
  function Symbols(ips: seq<nat>, symOf: nat -> string): seq<string> {
    if ips == [] then []
    else Symbols(ips[1..], symOf) + if ips[0] == 0 then [] else [Replaced(symOf(ips[0]), CleanSym)]
  }

  /** `frames` are the sanitised symbols of the addresses `js`, which are all but zeros, the last first. */
  ghost predicate FromTheRoot(ips: seq<nat>, symOf: nat -> string, js: seq<nat>, frames: seq<string>) {
    && (forall i, k :: 0 <= i < k < |js| ==> js[i] > js[k])
    && (forall j: nat :: j in js <==> j < |ips| && ips[j] != 0)
    && NamedAfter(ips, symOf, js, frames)
  }

  ghost predicate NamedAfter(ips: seq<nat>, symOf: nat -> string, js: seq<nat>, frames: seq<string>) {
    && |js| == |frames|
    && forall i :: 0 <= i < |js| ==> js[i] < |ips| && Sanitised(symOf(ips[js[i]]), {';', ' ', '\t'}, frames[i])
  }

  lemma {:induction false} SymbolsFromTheRoot(ips: seq<nat>, symOf: nat -> string) returns (js: seq<nat>)
    ensures FromTheRoot(ips, symOf, js, Symbols(ips, symOf))
  {
    js := [];
    if ips != [] {
      var before := SymbolsFromTheRoot(ips[1..], symOf);
      js := OneAddressBefore(ips, ips[1..], symOf, before, Symbols(ips[1..], symOf), Symbols(ips, symOf));
    }
  }

  lemma {:induction false} OneAddressBefore(
      ips: seq<nat>, rest: seq<nat>, symOf: nat -> string, before: seq<nat>, frames: seq<string>, all: seq<string>)
    returns (js: seq<nat>)
    requires ips != [] && rest == ips[1..] && FromTheRoot(rest, symOf, before, frames)
    requires all == frames + if ips[0] == 0 then [] else [Replaced(symOf(ips[0]), CleanSym)]
    ensures FromTheRoot(ips, symOf, js, all)
  {
    var ip := ips[0];
    assert ips == [ip] + rest;
    var shifted := seq(|before|, i requires 0 <= i < |before| => before[i] + 1);
    js := shifted + if ip == 0 then [] else [0];
    forall j: nat
      ensures j in js <==> j < |ips| && ips[j] != 0
    {
      ShiftedMember(before, shifted, j);
      assert j > 0 ==> (j - 1 in before <==> j - 1 < |rest| && rest[j - 1] != 0);
    }
    NamedOneMore(ip, rest, symOf, before, frames, shifted);
  }

  lemma {:induction false} NamedOneMore(
      ip: nat, ips: seq<nat>, symOf: nat -> string, before: seq<nat>, frames: seq<string>, shifted: seq<nat>)
    requires NamedAfter(ips, symOf, before, frames)
    requires |shifted| == |before| && forall i :: 0 <= i < |before| ==> shifted[i] == before[i] + 1
    ensures NamedAfter([ip] + ips, symOf, shifted, frames)
    ensures NamedAfter([ip] + ips, symOf, shifted + [0], frames + [Replaced(symOf(ip), CleanSym)])
  {
    ReplacedIsSanitised(symOf(ip));
    assert forall i :: 0 <= i < |before| ==> ([ip] + ips)[shifted[i]] == ips[before[i]];
  }

  lemma {:induction false} ShiftedMember(before: seq<nat>, shifted: seq<nat>, j: nat)
    requires |shifted| == |before| && forall i :: 0 <= i < |before| ==> shifted[i] == before[i] + 1
    ensures j in shifted <==> j > 0 && j - 1 in before
  {
    if j > 0 && j - 1 in before {
      var i :| 0 <= i < |before| && before[i] == j - 1;
      assert shifted[i] == j;
    }
  }

  /** Frames put together as Resolve does. */
  function Chain(frames: seq<string>): string {
    if frames == [] then ""
    else
      var out := Chain(frames[..|frames| - 1]);
      (if out != "" then out + [';'] else out) + frames[|frames| - 1]
  }

  /** `StackSymbolizer::Resolve`. */
  method Resolve(ips: seq<nat>, symOf: nat -> string) returns (out: string)
    ensures out == Chain(Symbols(ips, symOf))
  {
    out := "";
    var i := |ips|;
    while i > 0
      invariant 0 <= i <= |ips| && out == Chain(Symbols(ips[i..], symOf))
    {
      i := i - 1;
      assert ips[i..][1..] == ips[i + 1..];
      if ips[i] == 0 {
        assert Symbols(ips[i..], symOf) == Symbols(ips[i + 1..], symOf);
        continue;
      }
      ghost var before := Symbols(ips[i + 1..], symOf);
      var sym := Replaced(symOf(ips[i]), CleanSym);
      assert (before + [sym])[..|before|] == before;
      if out != "" { out := out + [';']; }
      out := out + sym;
    }
    assert ips[0..] == ips;
  }

  /** Reading back what Resolve put together gives its frames, but for empty ones. */
  lemma {:induction false} ChainFrames(frames: seq<string>)
    requires AllFree(frames, ';')
    ensures Frames(Chain(frames)) == NonEmpty(frames)
  {
    if frames == [] {
      FrameOf("");
    } else {
      var n := |frames| - 1;
      var out, last := Chain(frames[..n]), frames[n];
      ChainFrames(frames[..n]);
      FrameOf(last);
      assert frames == frames[..n] + [last];
      NonEmptyConcat(frames[..n], [last]);
      assert NonEmpty([]) == [];
      assert NonEmpty([last]) == (if last == "" then [] else [last]) + NonEmpty([]);
      if out == "" {
        FrameOf("");
        assert out + last == last;
      } else {
        FramesConcat(out, last);
      }
    }
  }

  lemma {:induction false} SymbolsAreFree(ips: seq<nat>, symOf: nat -> string)
    ensures AllFree(Symbols(ips, symOf), ';')
  {
    if ips != [] {
      SymbolsAreFree(ips[1..], symOf);
      ReplacedIsFree(symOf(ips[0]), CleanSym, ';');
    }
  }

  // ---- process and thread frames ----

  function TaskFrame(kind: char, num: nat, comm: string): string {
    [kind, ':'] + Decimal(num) + "/" + comm
  }

  /** The two frames the collector puts in front of a stack give back process and thread, whatever the
      names contain. */
  lemma {:induction false} TaskRoundTrip(kind: char, num: nat, comm: string, number: Numeral)
    requires kind != '/' && num <= EXACT && ReadsDecimals(number)
    ensures ParseTask(TaskFrame(kind, num, comm), number) == Task(Some(num as real), comm)
  {
    var head := [kind, ':'] + Decimal(num);
    DecimalIsFree(num, '/');
    FirstSeparator(head, '/', comm);
    var s := TaskFrame(kind, num, comm);
    assert s == head + ['/'] + comm;
    assert s[2..|head|] == Decimal(num) && s[|head| + 1..] == comm;
  }

  /** What the kernel counted for a stack: who ran or waited, with the names as the kernel has them, the
      stacks as addresses, and how much. */
  datatype Sample =
    | OnCpu(pid: nat, pcomm: string, tid: nat, tcomm: string, kernel: seq<nat>, user: seq<nat>, value: nat)
    | OffCpu(tid: nat, owner: Option<(nat, string)>, kernel: seq<nat>, value: nat)

  /** How addresses are named: in the kernel, and in each process. */
  datatype Symboliser = Symboliser(inKernel: nat -> string, inProcess: nat -> nat -> string)

  function KernelFrames(s: Sample, names: Symboliser): seq<string> {
    Symbols(s.kernel, names.inKernel)
  }

  function UserFrames(s: Sample, names: Symboliser): seq<string> {
    if s.OnCpu? then Symbols(s.user, names.inProcess(s.pid)) else []
  }

  function TaskFrames(s: Sample): seq<string> {
    match s
    case OnCpu(pid, pcomm, tid, tcomm, _, _, _) =>
      [TaskFrame('p', pid, CommOf(pcomm)), TaskFrame('t', tid, CommOf(tcomm))]
    case OffCpu(tid, Some((tgid, comm)), _, _) =>
      [TaskFrame('p', tgid, CommOf(comm)), TaskFrame('t', tid, CommOf(comm))]
    case OffCpu(tid, None, _, _) => [TaskFrame('t', tid, "")]
  }

  /** The frames a sample stands for. */
  function FramesOf(s: Sample, names: Symboliser): seq<string> {
    TaskFrames(s) + NonEmpty(KernelFrames(s, names)) + NonEmpty(UserFrames(s, names))
  }

  function TaskLine(s: Sample): string {
    var frames := TaskFrames(s);
    if |frames| == 2 then frames[0] + [';'] + frames[1] else frames[0]
  }

  function Extended(line: string, frames: string): string {
    if frames == "" then line else line + [';'] + frames
  }

  /** The line stored for a sample. */
  function SampleLine(s: Sample, names: Symboliser): string {
    var ks, us := Chain(KernelFrames(s, names)), Chain(UserFrames(s, names));
    match s
    case OnCpu(_, _, _, _, _, _, _) => Extended(Extended(TaskLine(s), ks), us)
    case OffCpu(_, _, _, _) => TaskLine(s) + [';'] + ks
  }

  /** The line of a thread's time on the CPU spelled out: process, thread, kernel stack, user stack. */
  lemma {:induction false} OnCpuSpelledOut(s: Sample, names: Symboliser)
    requires s.OnCpu?
    ensures var ks, us := Chain(KernelFrames(s, names)), Chain(UserFrames(s, names));
            SampleLine(s, names) ==
            "p:" + Decimal(s.pid) + "/" + CommOf(s.pcomm) + ";" + ("t:" + Decimal(s.tid) + "/" + CommOf(s.tcomm))
            + (if ks == "" then "" else ";" + ks) + (if us == "" then "" else ";" + us)
  {
    var line, ks, us := TaskLine(s), Chain(KernelFrames(s, names)), Chain(UserFrames(s, names));
    ExtendedBy(line, ks);
    ExtendedBy(Extended(line, ks), us);
  }

  lemma {:induction false} ExtendedBy(line: string, frames: string)
    ensures Extended(line, frames) == line + if frames == "" then "" else ";" + frames
  {
    assert line + [';'] + frames == line + (";" + frames) && line + "" == line;
  }

  /** And of a wait: a separator before the kernel stack in any case. */
  lemma {:induction false} OffCpuSpelledOut(s: Sample, names: Symboliser)
    requires s.OffCpu?
    ensures SampleLine(s, names) ==
            (match s.owner
             case Some((tgid, comm)) =>
               "p:" + Decimal(tgid) + "/" + CommOf(comm) + ";" + ("t:" + Decimal(s.tid) + "/" + CommOf(comm))
             case None => "t:" + Decimal(s.tid) + "/" + "")
            + ";" + Chain(KernelFrames(s, names))
  {
  }

  /** The line of a thread's time on the CPU: kernel frames next to the root, user frames at the leaf. */
  method StoreOnCpu(s: Sample, names: Symboliser) returns (line: string)
    requires s.OnCpu?
    ensures line == SampleLine(s, names)
  {
    var us := Resolve(s.user, names.inProcess(s.pid));
    var ks := Resolve(s.kernel, names.inKernel);
    var tc := SanitizeComm(s.tcomm);
    var pc := SanitizeComm(s.pcomm);
    line := TaskFrame('p', s.pid, pc) + [';'] + TaskFrame('t', s.tid, tc);
    if ks != "" { line := line + [';'] + ks; }
    if us != "" { line := line + [';'] + us; }
  }

  /** The line of a thread's wait. */
  method StoreOffCpu(s: Sample, names: Symboliser) returns (line: string)
    requires s.OffCpu?
    ensures line == SampleLine(s, names)
  {
    var ks := Resolve(s.kernel, names.inKernel);
    if s.owner.Some? {
      var c := SanitizeComm(s.owner.value.1);
      line := TaskFrame('p', s.owner.value.0, c) + [';'] + TaskFrame('t', s.tid, c);
    } else {
      line := TaskFrame('t', s.tid, "");
    }
    line := line + [';'] + ks;
  }

  lemma {:induction false} TaskFrameIsFree(kind: char, num: nat, raw: string)
    requires kind != ';'
    ensures Free(TaskFrame(kind, num, CommOf(raw)), ';')
  {
    DecimalIsFree(num, ';');
    ReplacedIsFree(Cut(raw), CleanComm, ';');
    FreeConcat([kind, ':'] + Decimal(num), "/", ';');
    FreeConcat([kind, ':'] + Decimal(num) + "/", CommOf(raw), ';');
  }

  lemma {:induction false} TaskLineFrames(s: Sample)
    ensures Frames(TaskLine(s)) == TaskFrames(s)
  {
    var frames := TaskFrames(s);
    match s {
      case OnCpu(pid, pcomm, tid, tcomm, _, _, _) =>
        TaskFrameIsFree('p', pid, pcomm);
        TaskFrameIsFree('t', tid, tcomm);
      case OffCpu(tid, Some((tgid, comm)), _, _) =>
        TaskFrameIsFree('p', tgid, comm);
        TaskFrameIsFree('t', tid, comm);
      case OffCpu(tid, None, _, _) =>
        TaskFrameIsFree('t', tid, "");
        assert CommOf("") == "";
    }
    FrameOf(frames[0]);
    if |frames| == 2 {
      FrameOf(frames[1]);
      FramesConcat(frames[0], frames[1]);
    }
  }

  lemma {:induction false} ExtendedFrames(line: string, frames: string)
    ensures Frames(Extended(line, frames)) == Frames(line) + Frames(frames)
  {
    FramesConcat(line, frames);
    FrameOf("");
  }

  /** What sanitising and joining are for: splitting a stored line gives exactly the frames it was made
      of, whatever task names and symbols contain. */
  lemma {:induction false} StoredFrames(s: Sample, names: Symboliser)
    ensures Frames(SampleLine(s, names)) == FramesOf(s, names)
  {
    var ks, us := Chain(KernelFrames(s, names)), Chain(UserFrames(s, names));
    TaskLineFrames(s);
    SymbolsAreFree(s.kernel, names.inKernel);
    ChainFrames(KernelFrames(s, names));
    if s.OnCpu? {
      SymbolsAreFree(s.user, names.inProcess(s.pid));
      ChainFrames(UserFrames(s, names));
      ExtendedFrames(TaskLine(s), ks);
      ExtendedFrames(Extended(TaskLine(s), ks), us);
    } else {
      FramesConcat(TaskLine(s), ks);
      assert NonEmpty([]) == [];
    }
  }

  // ---- a whole profile ----

  predicate Storable(s: Sample) {
    && 0 < s.value <= EXACT && s.tid <= EXACT
    && (s.OnCpu? ==> s.pid <= EXACT) && (s.OffCpu? && s.owner.Some? ==> s.owner.value.0 <= EXACT)
  }

  /** What reading a profile back should give of a sample. */
  function TrueLine(s: Sample, names: Symboliser): Line {
    match s
    case OnCpu(pid, pcomm, tid, tcomm, _, _, _) =>
      Line(FramesOf(s, names), s.value as real,
           Some(Task(Some(pid as real), CommOf(pcomm))), Some(Task(Some(tid as real), CommOf(tcomm))))
    case OffCpu(tid, Some((tgid, comm)), _, _) =>
      Line(FramesOf(s, names), s.value as real,
           Some(Task(Some(tgid as real), CommOf(comm))), Some(Task(Some(tid as real), CommOf(comm))))
    case OffCpu(tid, None, _, _) =>
      Line(FramesOf(s, names), s.value as real, None, Some(Task(Some(tid as real), "")))
  }

  /** A line break in a task name, before its terminating zero, or in a symbol. */
  ghost predicate HasLineBreak(s: Sample, names: Symboliser) {
    || (s.OnCpu? && !(Free(Cut(s.pcomm), '\n') && Free(Cut(s.tcomm), '\n')))
    || (s.OffCpu? && s.owner.Some? && !Free(Cut(s.owner.value.1), '\n'))
    || (exists i :: 0 <= i < |s.kernel| && s.kernel[i] != 0 && !Free(names.inKernel(s.kernel[i]), '\n'))
    || (s.OnCpu? && exists i :: 0 <= i < |s.user| && s.user[i] != 0 && !Free(names.inProcess(s.pid)(s.user[i]), '\n'))
  }

  /** The wait of a thread whose process is unknown, in a function whose name looks like another thread:
      the viewer takes that for the thread. */
  predicate Misread(s: Sample, names: Symboliser, number: Numeral) {
    var frames := FramesOf(s, names);
    && s.OffCpu? && s.owner.None?
    && |frames| > 1 && StartsWith(frames[1], "t:") && ParseTask(frames[1], number) != Task(Some(s.tid as real), "")
  }

  lemma {:induction false} CleanStays(s: string)
    requires Free(s, ';') && Free(s, ' ') && Free(s, '\t')
    ensures Replaced(s, CleanSym) == s
  {
    forall i | 0 <= i < |s|
      ensures Replaced(s, CleanSym)[i] == s[i]
    {
      assert CleanSym(s[i]) == s[i];
    }
  }

  lemma {:induction false} OneSymbol(ip: nat, symOf: nat -> string)
    requires ip != 0
    ensures Symbols([ip], symOf) == [Replaced(symOf(ip), CleanSym)]
  {
    assert [ip][1..] == [] && Symbols([], symOf) == [];
  }

  /** Such a wait: in a function named like the frame of another thread. */
  lemma {:induction false} WaitIsMisread(
      tid: nat, ip: nat, value: nat, other: nat, comm: string, names: Symboliser, number: Numeral)
    requires ReadsDecimals(number) && ip != 0 && other <= EXACT && other != tid
    requires names.inKernel(ip) == TaskFrame('t', other, comm)
    requires Free(comm, ';') && Free(comm, ' ') && Free(comm, '\t')
    ensures Misread(OffCpu(tid, None, [ip], value), names, number)
  {
    var s, frame := OffCpu(tid, None, [ip], value), TaskFrame('t', other, comm);
    FrameIsFree(other, comm, ';');
    FrameIsFree(other, comm, ' ');
    FrameIsFree(other, comm, '\t');
    CleanStays(frame);
    OneSymbol(ip, names.inKernel);
    TaskRoundTrip('t', other, comm, number);
    assert NonEmpty([]) == [] && NonEmpty([frame]) == [frame] + NonEmpty([]);
    assert FramesOf(s, names) == [TaskFrame('t', tid, ""), frame] && frame[..2] == "t:";
  }

  lemma {:induction false} FrameIsFree(num: nat, comm: string, c: char)
    requires Free(comm, c) && c !in "0123456789" && c != 't' && c != ':' && c != '/'
    ensures Free(TaskFrame('t', num, comm), c)
  {
    DecimalIsFree(num, c);
    FreeConcat(['t', ':'] + Decimal(num), "/", c);
    FreeConcat(['t', ':'] + Decimal(num) + "/", comm, c);
  }

  lemma {:induction false} SymbolsBreakIff(ips: seq<nat>, symOf: nat -> string)
    ensures AllFree(Symbols(ips, symOf), '\n') <==>
            forall i :: 0 <= i < |ips| && ips[i] != 0 ==> Free(symOf(ips[i]), '\n')
  {
    if ips != [] {
      SymbolsBreakIff(ips[1..], symOf);
      var rest := Symbols(ips[1..], symOf);
      assert forall i :: 0 <= i < |ips[1..]| ==> ips[1..][i] == ips[i + 1];
      if ips[0] == 0 {
        assert Symbols(ips, symOf) == rest;
      } else {
        ReplacedBreaksIff(symOf(ips[0]), CleanSym);
        AllFreeConcat(rest, [Replaced(symOf(ips[0]), CleanSym)], '\n');
        AllFreeFirst([Replaced(symOf(ips[0]), CleanSym)], '\n');
      }
    }
  }

  lemma {:induction false} TaskFrameBreaksIff(kind: char, num: nat, raw: string)
    requires kind != '\n'
    ensures Free(TaskFrame(kind, num, CommOf(raw)), '\n') <==> Free(Cut(raw), '\n')
  {
    var head, comm := [kind, ':'] + Decimal(num) + "/", CommOf(raw);
    DecimalIsFree(num, '\n');
    ReplacedBreaksIff(Cut(raw), CleanComm);
    assert Free(head, '\n');
    FreeConcat(head, comm, '\n');
  }

  lemma {:induction false} TaskFramesBreakIff(s: Sample)
    ensures AllFree(TaskFrames(s), '\n') <==>
            && (s.OnCpu? ==> Free(Cut(s.pcomm), '\n') && Free(Cut(s.tcomm), '\n'))
            && (s.OffCpu? && s.owner.Some? ==> Free(Cut(s.owner.value.1), '\n'))
  {
    match s {
      case OnCpu(pid, pcomm, tid, tcomm, _, _, _) =>
        TaskFrameBreaksIff('p', pid, pcomm);
        TaskFrameBreaksIff('t', tid, tcomm);
        AllFreeConcat([TaskFrames(s)[0]], [TaskFrames(s)[1]], '\n');
      case OffCpu(tid, Some((tgid, comm)), _, _) =>
        TaskFrameBreaksIff('p', tgid, comm);
        TaskFrameBreaksIff('t', tid, comm);
        AllFreeConcat([TaskFrames(s)[0]], [TaskFrames(s)[1]], '\n');
      case OffCpu(tid, None, _, _) =>
        TaskFrameBreaksIff('t', tid, "");
        assert CommOf("") == "";
    }
  }

  /** The frames of a sample contain a line break exactly if a name does. */
  lemma {:induction false} FramesBreakIff(s: Sample, names: Symboliser)
    ensures HasLineBreak(s, names) <==> !AllFree(FramesOf(s, names), '\n')
    ensures HasLineBreak(s, names) <==>
            !(AllFree(TaskFrames(s), '\n') && AllFree(KernelFrames(s, names), '\n')
              && AllFree(UserFrames(s, names), '\n'))
  {
    TaskFramesBreakIff(s);
    SymbolsBreakIff(s.kernel, names.inKernel);
    if s.OnCpu? {
      SymbolsBreakIff(s.user, names.inProcess(s.pid));
    }
    NonEmptyBreaksIff(KernelFrames(s, names), '\n');
    NonEmptyBreaksIff(UserFrames(s, names), '\n');
    AllFreeConcat(TaskFrames(s), NonEmpty(KernelFrames(s, names)), '\n');
    AllFreeConcat(TaskFrames(s) + NonEmpty(KernelFrames(s, names)), NonEmpty(UserFrames(s, names)), '\n');
  }

  lemma {:induction false} ChainIsFree(frames: seq<string>, d: char)
    requires AllFree(frames, d) && d != ';'
    ensures Free(Chain(frames), d)
  {
    if frames != [] {
      ChainIsFree(frames[..|frames| - 1], d);
    }
  }

  lemma {:induction false} StoredLineIsFree(s: Sample, names: Symboliser)
    requires !HasLineBreak(s, names)
    ensures Free(SampleLine(s, names), '\n')
  {
    FramesBreakIff(s, names);
    TaskLineIsFree(s);
    ChainIsFree(KernelFrames(s, names), '\n');
    ChainIsFree(UserFrames(s, names), '\n');
    var line, ks, us := TaskLine(s), Chain(KernelFrames(s, names)), Chain(UserFrames(s, names));
    JoinedIsFree(line, ks);
    JoinedIsFree(line, us);
    JoinedIsFree(line + [';'] + ks, us);
  }

  lemma {:induction false} JoinedIsFree(a: string, b: string)
    ensures Free(a + [';'] + b, '\n') <==> Free(a, '\n') && Free(b, '\n')
  {
    FreeConcat(a, [';'], '\n');
    FreeConcat(a + [';'], b, '\n');
  }

  lemma {:induction false} TaskLineIsFree(s: Sample)
    requires AllFree(TaskFrames(s), '\n')
    ensures Free(TaskLine(s), '\n')
  {
    var frames := TaskFrames(s);
    if |frames| == 2 {
      JoinedIsFree(frames[0], frames[1]);
    }
  }

  lemma {:induction false} TwoTasks(
      pid: nat, pcomm: string, tid: nat, tcomm: string, frames: seq<string>, number: Numeral)
    requires pid <= EXACT && tid <= EXACT && ReadsDecimals(number)
    requires |frames| >= 2 && frames[..2] == [TaskFrame('p', pid, pcomm), TaskFrame('t', tid, tcomm)]
    ensures ProcessOf(frames, number) == Some(Task(Some(pid as real), pcomm))
    ensures ThreadOf(frames, number) == Some(Task(Some(tid as real), tcomm))
  {
    TaskRoundTrip('p', pid, pcomm, number);
    TaskRoundTrip('t', tid, tcomm, number);
    assert frames[0] == frames[..2][0] && frames[1] == frames[..2][1];
    assert frames[0][..2] == "p:" && frames[1][..2] == "t:";
  }

  /** The line stored for a sample says what it should, unless it is misread. */
  lemma {:induction false} StoredLineIsTrueIff(s: Sample, names: Symboliser, number: Numeral)
    requires Storable(s) && ReadsDecimals(number)
    ensures Frames(SampleLine(s, names)) != []
    ensures LineOf(SampleLine(s, names), s.value, number) == TrueLine(s, names) <==> !Misread(s, names, number)
  {
    StoredFrames(s, names);
    var frames := FramesOf(s, names);
    if s.OffCpu? && s.owner.None? {
      TaskRoundTrip('t', s.tid, "", number);
      assert frames[0] == TaskFrame('t', s.tid, "") && frames[0][..2] == "t:";
    } else {
      assert frames[..2] == TaskFrames(s);
      var pid := if s.OnCpu? then s.pid else s.owner.value.0;
      var pcomm := if s.OnCpu? then s.pcomm else s.owner.value.1;
      var tcomm := if s.OnCpu? then s.tcomm else pcomm;
      TwoTasks(pid, CommOf(pcomm), s.tid, CommOf(tcomm), frames, number);
    }
  }

  function StoredLines(samples: seq<Sample>, names: Symboliser): seq<string> {
    seq(|samples|, i requires 0 <= i < |samples| => SampleLine(samples[i], names))
  }

  function Counts(samples: seq<Sample>): seq<nat> {
    seq(|samples|, i requires 0 <= i < |samples| => samples[i].value)
  }

  function TrueLines(samples: seq<Sample>, names: Symboliser): seq<Line> {
    seq(|samples|, i requires 0 <= i < |samples| => TrueLine(samples[i], names))
  }

  /** The text a profile of these samples is stored and shown as. */
  function ProfileText(samples: seq<Sample>, names: Symboliser): string {
    PrintText(StoredLines(samples, names), Counts(samples))
  }

  lemma {:induction false} UnbrokenProfile(samples: seq<Sample>, names: Symboliser, number: Numeral)
    requires ReadsDecimals(number) && forall i :: 0 <= i < |samples| ==> Storable(samples[i])
    requires forall i :: 0 <= i < |samples| ==> !HasLineBreak(samples[i], names)
    ensures Printable(StoredLines(samples, names), Counts(samples))
    ensures ParseLines(Split(ProfileText(samples, names), '\n'), number)
         == LinesOf(StoredLines(samples, names), Counts(samples), number)
  {
    forall i | 0 <= i < |samples|
      ensures Free(StoredLines(samples, names)[i], '\n') && Frames(StoredLines(samples, names)[i]) != []
    {
      StoredLineIsFree(samples[i], names);
      StoredLineIsTrueIff(samples[i], names, number);
    }
    TextRoundTrip(StoredLines(samples, names), Counts(samples), number);
  }

  /** No parsed frame contains a line break. */
  lemma {:induction false} BrokenProfile(samples: seq<Sample>, names: Symboliser, number: Numeral, i: nat)
    requires i < |samples| && HasLineBreak(samples[i], names)
    ensures ParseLines(Split(ProfileText(samples, names), '\n'), number) != TrueLines(samples, names)
  {
    var raws := Split(ProfileText(samples, names), '\n');
    PiecesAreFree(ProfileText(samples, names), '\n', '\n');
    ParsedFramesAreFree(raws, number);
    FramesBreakIff(samples[i], names);
    var l := TrueLines(samples, names)[i];
    assert l.frames == FramesOf(samples[i], names) && l in TrueLines(samples, names);
  }

  lemma {:induction false} LinesAreTrueIff(samples: seq<Sample>, names: Symboliser, number: Numeral)
    requires ReadsDecimals(number) && forall i :: 0 <= i < |samples| ==> Storable(samples[i])
    requires Printable(StoredLines(samples, names), Counts(samples))
    ensures LinesOf(StoredLines(samples, names), Counts(samples), number) == TrueLines(samples, names) <==>
            forall i :: 0 <= i < |samples| ==> !Misread(samples[i], names, number)
  {
    var parsed, lines := LinesOf(StoredLines(samples, names), Counts(samples), number), TrueLines(samples, names);
    forall i | 0 <= i < |samples|
      ensures parsed[i] == lines[i] <==> !Misread(samples[i], names, number)
    {
      StoredLineIsTrueIff(samples[i], names, number);
    }
  }

  /** Reading back the profile gives for every sample its process, thread, frames and value if and only
      if no task name and no symbol contains a line break, and no sample is misread. */
  lemma {:induction false} ProfileReadsBackIff(samples: seq<Sample>, names: Symboliser, number: Numeral)
    requires ReadsDecimals(number) && forall i :: 0 <= i < |samples| ==> Storable(samples[i])
    ensures ParseLines(Split(ProfileText(samples, names), '\n'), number) == TrueLines(samples, names) <==>
            forall i :: 0 <= i < |samples| ==> !HasLineBreak(samples[i], names) && !Misread(samples[i], names, number)
  {
    if i :| 0 <= i < |samples| && HasLineBreak(samples[i], names) {
      BrokenProfile(samples, names, number, i);
    } else {
      UnbrokenProfile(samples, names, number);
      LinesAreTrueIff(samples, names, number);
    }
  }

  lemma {:induction false} CutOfParts(a: string, b: string)
    requires Free(a, '\0')
    ensures Cut(a + b) == a + Cut(b)
  {
    if a == "" {
      assert a + b == b;
    } else {
      CutOfParts(a[1..], b);
      assert (a + b)[1..] == a[1..] + b && [a[0]] + (a[1..] + Cut(b)) == a + Cut(b);
    }
  }

  lemma {:induction false} BrokenLine(comm: string, tid: nat, tcomm: string, value: nat, number: Numeral)
    requires ReadsDecimals(number) && tid <= EXACT && 0 < value <= EXACT
    requires comm != "" && Free(comm, ';') && !StartsWith(comm, "p:")
    ensures var t := TaskFrame('t', tid, CommOf(tcomm));
            ParseLine(PrintLine(comm + [';'] + t, value), number) ==
            Some(Line([comm, t], value as real, None, Some(Task(Some(tid as real), CommOf(tcomm)))))
  {
    var t := TaskFrame('t', tid, CommOf(tcomm));
    FramesConcat(comm, t);
    FrameOf(comm);
    TaskFrameIsFree('t', tid, tcomm);
    FrameOf(t);
    assert Frames(comm + [';'] + t) == [comm, t];
    TaskRoundTrip('t', tid, CommOf(tcomm), number);
    assert t[..2] == "t:";
    LineRoundTrip(comm + [';'] + t, value, number);
  }

  lemma {:induction false} BrokenName(pid: nat, a: string, b: string)
    requires Free(a, '\0')
    ensures var first := TaskFrame('p', pid, Replaced(a, CleanComm));
            && TaskFrame('p', pid, CommOf(a + ['\n'] + b)) == first + ['\n'] + CommOf(b)
            && Free(first, ' ') && (Free(a, '\n') ==> Free(first, '\n'))
    ensures !Free(Cut(a + ['\n'] + b), '\n')
  {
    CutOfParts(a, ['\n'] + b);
    assert a + ['\n'] + b == a + (['\n'] + b) && Cut(['\n'] + b) == ['\n'] + Cut(b);
    assert Cut(a + ['\n'] + b)[|a|] == '\n';
    assert CommOf(a + ['\n'] + b) == Replaced(a, CleanComm) + ['\n'] + CommOf(b);
    var head := ['p', ':'] + Decimal(pid) + "/";
    DecimalIsFree(pid, ' ');
    DecimalIsFree(pid, '\n');
    ReplacedIsFree(a, CleanComm, ' ');
    ReplacedBreaksIff(a, CleanComm);
    FreeConcat(head, Replaced(a, CleanComm), ' ');
    FreeConcat(head, Replaced(a, CleanComm), '\n');
  }

  lemma {:induction false} BrokenText(first: string, second: string, value: nat)
    requires Free(first, '\n') && Free(second, '\n')
    ensures Split(PrintText([first + ['\n'] + second], [value]), '\n') == [first] + [PrintLine(second, value)] + [""]
  {
    var line, raw := first + ['\n'] + second, PrintLine(second, value);
    assert PrintText([], []) == "";
    assert PrintText([line], [value]) == PrintLine(line, value) + "\n" + PrintText([line][1..], [value][1..]);
    assert PrintText([line], [value]) == first + ['\n'] + (raw + ['\n'] + "");
    DecimalIsFree(value, '\n');
    FreeConcat(second, " ", '\n');
    FreeConcat(second + " ", Decimal(value), '\n');
    SplitFirst(first, '\n', raw + ['\n'] + "");
    SplitFirst(raw, '\n', "");
    SplitFree("", '\n');
  }

  lemma {:induction false} NoBlankNoLine(raw: string, number: Numeral)
    requires Free(raw, ' ')
    ensures Yield(raw, number) == []
  {
  }

  lemma {:induction false} OneRawLine(raw: string, number: Numeral)
    ensures ParseLines([raw], number) == Yield(raw, number)
  {
    assert [raw][..0] == [];
  }

  lemma {:induction false} SecondLineOnly(first: string, raw: string, l: Line, number: Numeral)
    requires Free(first, ' ') && ParseLine(raw, number) == Some(l)
    ensures ParseLines([first] + [raw] + [""], number) == [l]
  {
    NoBlankNoLine(first, number);
    NoBlankNoLine("", number);
    OneRawLine(first, number);
    ParseLinesAppend([first], raw, number);
    ParseLinesAppend([first] + [raw], "", number);
  }

  lemma {:induction false} StacklessText(s: Sample, names: Symboliser)
    requires s.OnCpu? && s.kernel == [] && s.user == []
    ensures ProfileText([s], names) == PrintText([TaskLine(s)], [s.value])
  {
    assert StoredLines([s], names) == [TaskLine(s)] && Counts([s]) == [s.value];
  }

  /** A process whose name has a line break between `a` and `b`: its line becomes two, the first is
      dropped, and the other has lost its process; what is left of the name is a frame. */
  lemma {:induction false} LineBreakLosesTheProcess(
      pid: nat, a: string, b: string, tid: nat, tcomm: string, value: nat, names: Symboliser, number: Numeral)
    requires ReadsDecimals(number) && tid <= EXACT && 0 < value <= EXACT
    requires Free(a, '\0') && Free(a, '\n') && Free(Cut(tcomm), '\n')
    requires Free(Cut(b), '\n') && CommOf(b) != "" && !StartsWith(CommOf(b), "p:")
    ensures var s := OnCpu(pid, a + ['\n'] + b, tid, tcomm, [], [], value);
            && HasLineBreak(s, names)
            && ParseLines(Split(ProfileText([s], names), '\n'), number)
            == [Line([CommOf(b), TaskFrame('t', tid, CommOf(tcomm))], value as real, None,
                     Some(Task(Some(tid as real), CommOf(tcomm))))]
  {
    var s := OnCpu(pid, a + ['\n'] + b, tid, tcomm, [], [], value);
    var first := TaskFrame('p', pid, Replaced(a, CleanComm));
    var second := CommOf(b) + [';'] + TaskFrame('t', tid, CommOf(tcomm));
    BrokenName(pid, a, b);
    assert TaskLine(s) == first + ['\n'] + second;
    ReplacedIsFree(Cut(b), CleanComm, ';');
    ReplacedBreaksIff(Cut(b), CleanComm);
    TaskFrameBreaksIff('t', tid, tcomm);
    JoinedIsFree(CommOf(b), TaskFrame('t', tid, CommOf(tcomm)));
    BrokenLine(CommOf(b), tid, tcomm, value, number);
    BrokenText(first, second, value);
    StacklessText(s, names);
    SecondLineOnly(first, PrintLine(second, value), ParseLine(PrintLine(second, value), number).value, number);
  }
}
