/**
 Atomic file replacement (src/lib/util/FileSystem.cpp:49-117, src/lib/util/FileSystem.h:59-75) as a protocol: any number
 of writers of one target, in any number of processes, interleaved step by step, with failures and crashes at every
 step and with process identifiers used again. In every reachable state the target is as it was at first or holds the
 complete data of the writer that replaced it last.
 */
module AtomicFiles {
  import opened ByteStrings
  import opened Decimal

  const DOT: Byte := 0x2E
  const TEMP: Bytes := [DOT, 0x74, 0x6D, 0x70, DOT]

  /** The temporary name next to the target. */
  function TempName(target: Bytes, pid: nat, serial: nat): (r: Bytes) {
    target + (TEMP + (Dec(pid) + ([DOT] + Dec(serial))))
  }

  lemma DecIsDigits(n: nat)
    ensures AllDigits(Dec(n)) && Dec(n) != []
  {
    DecRoundTrip(n);
  }

  lemma TailsDiffer(p: nat, s: nat, q: nat, t: nat)
    requires Dec(p) + ([DOT] + Dec(s)) == Dec(q) + ([DOT] + Dec(t))
    ensures p == q && s == t
  {
    hide Dec, DigitsEnd;
    var x := Dec(p) + ([DOT] + Dec(s));
    DecIsDigits(p);
    DecIsDigits(q);
    NumberEndsAtDot(p, s);
    NumberEndsAtDot(q, t);
    assert |Dec(p)| == |Dec(q)|;
    assert Dec(p) == x[..|Dec(p)|] == Dec(q);
    assert Dec(s) == x[|Dec(p)| + 1..] == Dec(t);
    DecInjective(p, q);
    DecInjective(s, t);
  }

  lemma NumberEndsAtDot(p: nat, s: nat)
    ensures DigitsEnd(Dec(p) + ([DOT] + Dec(s)), 0) == |Dec(p)|
  {
    hide Dec, DigitsEnd;
    var x := Dec(p) + ([DOT] + Dec(s));
    DecIsDigits(p);
    assert x[0..|Dec(p)|] == Dec(p);
    assert x[|Dec(p)|] == DOT;
    DigitsEndAt(x, 0, Dec(p));
  }

  /** Names of different processes or different calls differ, and none is the target. */
  lemma TempNamesDiffer(target: Bytes, p: nat, s: nat, q: nat, t: nat)
    ensures TempName(target, p, s) != target && target + Ascii(".tmp.") <= TempName(target, p, s)
    ensures TempName(target, p, s) == TempName(target, q, t) ==> p == q && s == t
  {
    hide Dec;
    var x, y := Dec(p) + ([DOT] + Dec(s)), Dec(q) + ([DOT] + Dec(t));
    var m, n := TempName(target, p, s), TempName(target, q, t);
    if m == n {
      assert x == m[|target| + 5..] == n[|target| + 5..] == y;
      TailsDiffer(p, s, q, t);
    }
  }

  // ---- The protocol -----------------------------------------------------------------------------

  datatype Status = Ok | TargetUnusable | WriteFailed | Crashed

  /** Where a call is: not named yet, named, writing (with so many octets in the file), closed, about to remove, or over
      (with the temporary file left behind, or not). */
  datatype Phase = Idle | Named | Writing(count: nat) | Closed | Failing | Over(status: Status, left: bool)

  datatype Writer = Writer(pid: nat, data: Bytes, serial: nat, phase: Phase)

  /** The files, the counter of each process, every call so far, and the call that replaced the target last. */
  datatype World = World(files: map<Bytes, Bytes>, counters: map<nat, nat>, writers: seq<Writer>, winner: Option<nat>)

  predicate Live(w: Writer) { w.phase.Named? || w.phase.Writing? || w.phase.Closed? || w.phase.Failing? }

  /** The call has opened its temporary file and neither renamed nor removed it. */
  predicate HasTemp(w: Writer) {
    w.phase.Writing? || w.phase.Closed? || w.phase.Failing? || (w.phase.Over? && w.phase.left)
  }

  predicate Succeeded(w: Writer) { w.phase.Over? && w.phase.status.Ok? }

  function Counter(w: World, pid: nat): (n: nat) { if pid in w.counters then w.counters[pid] else 0 }

  function Temp(target: Bytes, w: Writer): (r: Bytes) { TempName(target, w.pid, w.serial) }

  /** What a call can do next. */
  datatype Action =
    | Refuse                   // empty path, or no directory
    | TakeName                 // the counter gives a serial number
    | Open | OpenFails
    | Write(count: nat)        // so many octets have reached the file
    | WriteFails | Close
    | Rename | RenameFails
    | Remove(removed: bool)    // the temporary file is removed, or cannot be
    | Crash

  datatype Event =
    | Call(pid: nat, data: Bytes)    // a call of WriteBytesAtomic starts
    | Restart(pid: nat)              // the process is gone; its identifier may be used again
    | Act(i: nat, action: Action)

  predicate CanAct(me: Writer, a: Action) {
    match a
    case Refuse => me.phase.Idle?
    case TakeName => me.phase.Idle?
    case Open => me.phase.Named?
    case OpenFails => me.phase.Named?
    case Write(count) => me.phase.Writing? && me.phase.count <= count <= |me.data|
    case WriteFails => me.phase.Writing?
    case Close => me.phase.Writing? && me.phase.count == |me.data|
    case Rename => me.phase.Closed?
    case RenameFails => me.phase.Closed?
    case Remove(_) => me.phase.Failing?
    case Crash => !me.phase.Over?
  }

  predicate Enabled(w: World, e: Event) {
    match e
    case Call(_, _) => true
    case Restart(pid) => forall i :: 0 <= i < |w.writers| && w.writers[i].pid == pid ==> w.writers[i].phase.Over?
    case Act(i, a) => i < |w.writers| && CanAct(w.writers[i], a)
  }

  /** The call after an action. */
  function After(me: Writer, a: Action, counter: nat): (r: Writer) {
    match a
    case Refuse => me.(phase := Over(TargetUnusable, false))
    case TakeName => me.(serial := counter, phase := Named)
    case Open => me.(phase := Writing(0))
    case OpenFails => me.(phase := Over(TargetUnusable, false))
    case Write(count) => me.(phase := Writing(count))
    case WriteFails => me.(phase := Failing)
    case Close => me.(phase := Closed)
    case Rename => me.(phase := Over(Ok, false))
    case RenameFails => me.(phase := Failing)
    case Remove(removed) => me.(phase := Over(WriteFailed, !removed))
    case Crash => me.(phase := Over(Crashed, HasTemp(me)))
  }

  /** The files after an action; renaming replaces the target in one step. */
  function FilesAfter(target: Bytes, files: map<Bytes, Bytes>, me: Writer, a: Action): (r: map<Bytes, Bytes>)
    requires CanAct(me, a)
  {
    var temp := Temp(target, me);
    match a
    case Open => files[temp := []]
    case Write(count) => files[temp := me.data[..count]]
    case Rename => if temp in files then files[target := files[temp]] - {temp} else files
    case Remove(removed) => if removed then files - {temp} else files
    case _ => files
  }

  function Apply(target: Bytes, w: World, e: Event): (r: World)
    requires Enabled(w, e)
  {
    match e
    case Call(pid, data) => w.(writers := w.writers + [Writer(pid, data, 0, Idle)])
    case Restart(pid) => w.(counters := w.counters[pid := 0])
    case Act(i, a) =>
      var me := w.writers[i];
      World(FilesAfter(target, w.files, me, a),
            if a.TakeName? then w.counters[me.pid := Counter(w, me.pid) + 1] else w.counters,
            w.writers[i := After(me, a, Counter(w, me.pid))],
            if a.Rename? then Some(i) else w.winner)
  }

  /** What a reader of a path sees. */
  function Seen(w: World, path: Bytes): (r: Option<Bytes>) { if path in w.files then Some(w.files[path]) else None }

  // ---- The invariant ----------------------------------------------------------------------------

  predicate Numbered(w: World, i: nat)
    requires i < |w.writers|
  {
    Live(w.writers[i]) ==> w.writers[i].serial < Counter(w, w.writers[i].pid)
  }

  predicate Apart(w: World, i: nat, j: nat)
    requires i < |w.writers| && j < |w.writers|
  {
    i != j && Live(w.writers[i]) && Live(w.writers[j]) && w.writers[i].pid == w.writers[j].pid ==>
    w.writers[i].serial != w.writers[j].serial
  }

  /** The temporary file of a call holds what the call has written. */
  predicate Holds(target: Bytes, w: World, i: nat)
    requires i < |w.writers|
  {
    var me := w.writers[i];
    && (me.phase.Writing? ==> me.phase.count <= |me.data|)
    && (me.phase.Writing? ==> Seen(w, Temp(target, me)) == Some(me.data[..me.phase.count]))
    && (me.phase.Closed? ==> Seen(w, Temp(target, me)) == Some(me.data))
  }

  /** The target is as at first, or holds all the data of the call that replaced it last, which reported success. */
  predicate TargetOk(target: Bytes, initial: Option<Bytes>, w: World) {
    match w.winner
    case None => Seen(w, target) == initial && forall i :: 0 <= i < |w.writers| ==> !Succeeded(w.writers[i])
    case Some(i) => i < |w.writers| && Succeeded(w.writers[i]) && Seen(w, target) == Some(w.writers[i].data)
  }

  predicate Inv(target: Bytes, initial: Option<Bytes>, w: World) {
    && (forall i :: 0 <= i < |w.writers| ==> Numbered(w, i))
    && (forall i, j :: 0 <= i < |w.writers| && 0 <= j < |w.writers| ==> Apart(w, i, j))
    && (forall i :: 0 <= i < |w.writers| ==> Holds(target, w, i))
    && TargetOk(target, initial, w)
  }

  /** Live calls have different temporary files. */
  lemma LiveTempsDiffer(target: Bytes, w: World, i: nat, j: nat)
    requires i < |w.writers| && j < |w.writers| && i != j && Apart(w, i, j) && Live(w.writers[i]) && Live(w.writers[j])
    ensures Temp(target, w.writers[i]) != Temp(target, w.writers[j])
  {
    hide TempName;
    TempNamesDiffer(target, w.writers[i].pid, w.writers[i].serial, w.writers[j].pid, w.writers[j].serial);
  }

  lemma TempIsNotTarget(target: Bytes, w: Writer)
    ensures Temp(target, w) != target
  {
    hide TempName;
    TempNamesDiffer(target, w.pid, w.serial, 0, 0);
  }

  lemma NumberedStays(target: Bytes, initial: Option<Bytes>, w: World, e: Event, j: nat)
    requires Inv(target, initial, w) && Enabled(w, e) && j < |Apply(target, w, e).writers|
    ensures Numbered(Apply(target, w, e), j)
  {
    hide FilesAfter, TargetOk, Holds, Apart;
    if j < |w.writers| { assert Numbered(w, j); }
  }

  lemma ApartStays(target: Bytes, initial: Option<Bytes>, w: World, e: Event, j: nat, k: nat)
    requires Inv(target, initial, w) && Enabled(w, e)
    requires j < |Apply(target, w, e).writers| && k < |Apply(target, w, e).writers|
    ensures Apart(Apply(target, w, e), j, k)
  {
    hide FilesAfter, TargetOk, Holds;
    if j < |w.writers| && k < |w.writers| { assert Apart(w, j, k) && Numbered(w, j) && Numbered(w, k); }
  }

  /** What an action does to the files of another call. */
  lemma OtherFilesStay(target: Bytes, files: map<Bytes, Bytes>, me: Writer, a: Action, path: Bytes)
    requires CanAct(me, a) && path != target && (Live(me) ==> path != Temp(target, me))
    ensures path in FilesAfter(target, files, me, a) <==> path in files
    ensures path in files ==> FilesAfter(target, files, me, a)[path] == files[path]
  {
    hide Temp;
  }

  lemma HoldsElsewhere(target: Bytes, w: World, i: nat, a: Action, j: nat)
    requires i < |w.writers| && CanAct(w.writers[i], a) && j < |w.writers| && j != i
    requires Holds(target, w, j) && Apart(w, i, j)
    ensures Holds(target, Apply(target, w, Act(i, a)), j)
  {
    hide FilesAfter, Temp;
    var me, other := w.writers[i], w.writers[j];
    if Live(other) {
      TempIsNotTarget(target, other);
      if Live(me) { LiveTempsDiffer(target, w, i, j); }
      OtherFilesStay(target, w.files, me, a, Temp(target, other));
    }
  }

  lemma HoldsHere(target: Bytes, w: World, i: nat, a: Action)
    requires i < |w.writers| && CanAct(w.writers[i], a) && Holds(target, w, i)
    ensures Holds(target, Apply(target, w, Act(i, a)), i)
  {
    hide Temp;
    var me := w.writers[i];
    TempSame(target, me, a, Counter(w, me.pid));
    if a.Close? { assert me.data[..|me.data|] == me.data; }
  }

  lemma TempSame(target: Bytes, me: Writer, a: Action, n: nat)
    ensures a.TakeName? || Temp(target, After(me, a, n)) == Temp(target, me)
  {
    hide TempName;
  }

  lemma HoldsStays(target: Bytes, initial: Option<Bytes>, w: World, e: Event, j: nat)
    requires Inv(target, initial, w) && Enabled(w, e) && j < |Apply(target, w, e).writers|
    ensures Holds(target, Apply(target, w, e), j)
  {
    hide FilesAfter, Temp, TargetOk, Numbered;
    if e.Act? {
      assert Holds(target, w, j) && Apart(w, e.i, j);
      hide Apart, Holds;
      if j == e.i { HoldsHere(target, w, j, e.action); } else { HoldsElsewhere(target, w, e.i, e.action, j); }
    } else if j < |w.writers| {
      assert Holds(target, w, j);
    }
  }

  /** Only a successful renaming changes the target, and it puts the whole data there. */
  lemma OnlyRenameReplaces(target: Bytes, w: World, i: nat, a: Action)
    requires i < |w.writers| && CanAct(w.writers[i], a) && Holds(target, w, i)
    ensures !a.Rename? ==> Seen(Apply(target, w, Act(i, a)), target) == Seen(w, target)
    ensures a.Rename? ==> Seen(Apply(target, w, Act(i, a)), target) == Some(w.writers[i].data)
  {
    hide Temp;
    TempIsNotTarget(target, w.writers[i]);
  }

  lemma TargetStays(target: Bytes, initial: Option<Bytes>, w: World, e: Event)
    requires Inv(target, initial, w) && Enabled(w, e)
    ensures TargetOk(target, initial, Apply(target, w, e))
  {
    hide FilesAfter, Temp, Numbered, Apart;
    if e.Act? {
      assert Holds(target, w, e.i);
      OnlyRenameReplaces(target, w, e.i, e.action);
    }
  }

  lemma InvStays(target: Bytes, initial: Option<Bytes>, w: World, e: Event)
    requires Inv(target, initial, w) && Enabled(w, e)
    ensures Inv(target, initial, Apply(target, w, e))
  {
    hide Inv, Enabled, Apply, Numbered, Apart, Holds, TargetOk;
    var w' := Apply(target, w, e);
    forall j | 0 <= j < |w'.writers| ensures Numbered(w', j) { NumberedStays(target, initial, w, e, j); }
    forall j, k | 0 <= j < |w'.writers| && 0 <= k < |w'.writers| ensures Apart(w', j, k) {
      ApartStays(target, initial, w, e, j, k);
    }
    forall j | 0 <= j < |w'.writers| ensures Holds(target, w', j) { HoldsStays(target, initial, w, e, j); }
    TargetStays(target, initial, w, e);
    InvHolds(target, initial, w');
  }

  lemma InvHolds(target: Bytes, initial: Option<Bytes>, w: World)
    requires forall i :: 0 <= i < |w.writers| ==> Numbered(w, i)
    requires forall i, j :: 0 <= i < |w.writers| && 0 <= j < |w.writers| ==> Apart(w, i, j)
    requires forall i :: 0 <= i < |w.writers| ==> Holds(target, w, i)
    requires TargetOk(target, initial, w)
    ensures Inv(target, initial, w)
  {
    hide Numbered, Apart, Holds, TargetOk;
  }

  // ---- Runs -------------------------------------------------------------------------------------

  /** The events can happen one after the other. */
  predicate Possible(target: Bytes, w: World, events: seq<Event>)
    decreases |events|
  {
    events == [] || (Enabled(w, events[0]) && Possible(target, Apply(target, w, events[0]), events[1..]))
  }

  function Final(target: Bytes, w: World, events: seq<Event>): (r: World)
    requires Possible(target, w, events)
    decreases |events|
  {
    if events == [] then w else Final(target, Apply(target, w, events[0]), events[1..])
  }

  lemma {:induction false} RunKeepsInv(target: Bytes, initial: Option<Bytes>, w: World, events: seq<Event>)
    requires Inv(target, initial, w) && Possible(target, w, events)
    ensures Inv(target, initial, Final(target, w, events))
    decreases |events|
  {
    hide Inv, Enabled, Apply;
    if events != [] {
      InvStays(target, initial, w, events[0]);
      RunKeepsInv(target, initial, Apply(target, w, events[0]), events[1..]);
    }
  }

  /** Nothing has been called yet: any files, any counters. */
  predicate Fresh(w: World) { w.writers == [] && w.winner == None }

  lemma FreshInv(target: Bytes, w: World)
    requires Fresh(w)
    ensures Inv(target, Seen(w, target), w)
  {
  }

  /** Every reachable state, whatever the interleaving, the failures and the crashes: the target is as it was at first,
      or it is the complete data of a call that reported success. */
  lemma TargetIsAlwaysWhole(target: Bytes, w: World, events: seq<Event>)
    requires Fresh(w) && Possible(target, w, events)
    ensures var f := Final(target, w, events);
      if f.winner.None? then Seen(f, target) == Seen(w, target)
      else f.winner.value < |f.writers| && Succeeded(f.writers[f.winner.value])
           && Seen(f, target) == Some(f.writers[f.winner.value].data)
  {
    hide Enabled, Apply, Numbered, Apart, Holds;
    FreshInv(target, w);
    RunKeepsInv(target, Seen(w, target), w, events);
  }

  lemma {:induction false} RunSplits(target: Bytes, w: World, a: seq<Event>, b: seq<Event>)
    requires Possible(target, w, a + b)
    ensures Possible(target, w, a) && Possible(target, Final(target, w, a), b)
    ensures Final(target, Final(target, w, a), b) == Final(target, w, a + b)
    decreases |a|
  {
    hide Enabled, Apply;
    if a == [] {
      assert a + b == b;
    } else {
      assert (a + b)[0] == a[0] && (a + b)[1..] == a[1..] + b;
      RunSplits(target, Apply(target, w, a[0]), a[1..], b);
    }
  }

  lemma {:induction false} OverStays(target: Bytes, w: World, events: seq<Event>, i: nat)
    requires Possible(target, w, events) && i < |w.writers| && w.writers[i].phase.Over?
    ensures i < |Final(target, w, events).writers| && Final(target, w, events).writers[i] == w.writers[i]
    decreases |events|
  {
    hide FilesAfter;
    if events != [] { OverStays(target, Apply(target, w, events[0]), events[1..], i); }
  }

  /** A call that does not report success never changed the target: not at any of its steps. */
  lemma FailureLeavesTarget(target: Bytes, w: World, before: seq<Event>, i: nat, a: Action, after: seq<Event>)
    requires Fresh(w) && Possible(target, w, before + ([Act(i, a)] + after))
    requires var f := Final(target, w, before + ([Act(i, a)] + after)); i < |f.writers| && !Succeeded(f.writers[i])
    ensures Possible(target, w, before) && Possible(target, w, before + [Act(i, a)])
    ensures Seen(Final(target, w, before + [Act(i, a)]), target) == Seen(Final(target, w, before), target)
  {
    hide Possible, Final, Apply, Numbered, Apart, Holds, TargetOk;
    var step := [Act(i, a)];
    assert before + (step + after) == (before + step) + after;
    RunSplits(target, w, before + step, after);
    RunSplits(target, w, before, step);
    var s := Final(target, w, before);
    OneStep(target, s, Act(i, a));
    var t := Apply(target, s, Act(i, a));
    FreshInv(target, w);
    RunKeepsInv(target, Seen(w, target), w, before);
    assert Holds(target, s, i);
    OnlyRenameReplaces(target, s, i, a);
    if a.Rename? { RenameIsOver(target, s, i); OverStays(target, t, after, i); }
  }

  lemma OneStep(target: Bytes, w: World, e: Event)
    requires Possible(target, w, [e])
    ensures Enabled(w, e) && Final(target, w, [e]) == Apply(target, w, e)
  {
    hide Apply, Enabled;
    assert [e][1..] == [];
  }

  lemma RenameIsOver(target: Bytes, w: World, i: nat)
    requires Enabled(w, Act(i, Rename))
    ensures i < |Apply(target, w, Act(i, Rename)).writers| && Succeeded(Apply(target, w, Act(i, Rename)).writers[i])
  {
  }

  // ---- What stays behind ------------------------------------------------------------------------

  /** The path is the temporary file of a call that is at work, crashed, or could not remove it. */
  predicate Owned(target: Bytes, w: World, path: Bytes) {
    exists i :: 0 <= i < |w.writers| && HasTemp(w.writers[i]) && Temp(target, w.writers[i]) == path
  }

  /** Every file is the target, or was there before, or is such a temporary file. */
  predicate Tidy(target: Bytes, before: set<Bytes>, w: World) {
    forall path :: path in w.files ==> path == target || path in before || Owned(target, w, path)
  }

  lemma OwnedElsewhere(target: Bytes, w: World, e: Event, path: Bytes, i: nat)
    requires Enabled(w, e) && i < |w.writers| && HasTemp(w.writers[i]) && Temp(target, w.writers[i]) == path
    requires e.Act? ==> e.i != i
    ensures Owned(target, Apply(target, w, e), path)
  {
    hide FilesAfter, Temp, CanAct;
    assert Apply(target, w, e).writers[i] == w.writers[i];
  }

  lemma OwnedHere(target: Bytes, w: World, i: nat, a: Action)
    requires i < |w.writers| && CanAct(w.writers[i], a) && Live(w.writers[i])
    requires Temp(target, w.writers[i]) in Apply(target, w, Act(i, a)).files
    requires HasTemp(w.writers[i]) || a.Open?
    ensures Owned(target, Apply(target, w, Act(i, a)), Temp(target, w.writers[i]))
  {
    hide Temp;
    var me := w.writers[i];
    TempSame(target, me, a, Counter(w, me.pid));
    TempIsNotTarget(target, me);
    assert Apply(target, w, Act(i, a)).writers[i] == After(me, a, Counter(w, me.pid));
  }

  /** A path that an action creates is the target or the temporary file of the call. */
  lemma NewPath(target: Bytes, files: map<Bytes, Bytes>, me: Writer, a: Action, path: Bytes)
    requires CanAct(me, a) && path in FilesAfter(target, files, me, a) && path !in files && path != target
    ensures Live(me) && (HasTemp(me) || a.Open?) && path == Temp(target, me)
  {
    hide Temp;
  }

  lemma TidyStays(target: Bytes, before: set<Bytes>, w: World, e: Event)
    requires Enabled(w, e) && Tidy(target, before, w)
    ensures Tidy(target, before, Apply(target, w, e))
  {
    hide Owned, Temp, FilesAfter, CanAct;
    var w' := Apply(target, w, e);
    forall path | path in w'.files && path != target && path !in before ensures Owned(target, w', path) {
      PathStaysOwned(target, w, e, path);
    }
  }

  lemma PathStaysOwned(target: Bytes, w: World, e: Event, path: Bytes)
    requires Enabled(w, e) && path in Apply(target, w, e).files && path != target
    requires path in w.files ==> Owned(target, w, path)
    ensures Owned(target, Apply(target, w, e), path)
  {
    hide FilesAfter, Temp, CanAct, Live, HasTemp, Owned;
    if path in w.files {
      var i := Owner(target, w, path);
      if e.Act? && e.i == i { OwnerActs(target, w, i, e.action); } else { OwnedElsewhere(target, w, e, path, i); }
    } else {
      NewPath(target, w.files, w.writers[e.i], e.action, path);
      OwnedHere(target, w, e.i, e.action);
    }
  }

  lemma Owner(target: Bytes, w: World, path: Bytes) returns (i: nat)
    requires Owned(target, w, path)
    ensures i < |w.writers| && HasTemp(w.writers[i]) && Temp(target, w.writers[i]) == path
  {
    hide Temp, HasTemp;
    i :| 0 <= i < |w.writers| && HasTemp(w.writers[i]) && Temp(target, w.writers[i]) == path;
  }

  lemma OwnerActs(target: Bytes, w: World, i: nat, a: Action)
    requires i < |w.writers| && CanAct(w.writers[i], a) && HasTemp(w.writers[i])
    requires Temp(target, w.writers[i]) in Apply(target, w, Act(i, a)).files
    ensures Owned(target, Apply(target, w, Act(i, a)), Temp(target, w.writers[i]))
  {
    hide Temp, Apply;
    OwnedHere(target, w, i, a);
  }

  lemma {:induction false} RunStaysTidy(target: Bytes, before: set<Bytes>, w: World, events: seq<Event>)
    requires Tidy(target, before, w) && Possible(target, w, events)
    ensures Tidy(target, before, Final(target, w, events))
    decreases |events|
  {
    hide Tidy, Enabled, Apply;
    if events != [] {
      TidyStays(target, before, w, events[0]);
      RunStaysTidy(target, before, Apply(target, w, events[0]), events[1..]);
    }
  }

  /** The call crashed with a temporary file open, or failed and could not remove it. */
  predicate LeftBehind(w: Writer) { w.phase == Over(Crashed, true) || w.phase == Over(WriteFailed, true) }

  /** Success and an unusable target leave no temporary file. */
  predicate Explained(w: World) {
    forall i :: 0 <= i < |w.writers| && w.writers[i].phase.Over? && w.writers[i].phase.left ==> LeftBehind(w.writers[i])
  }

  lemma {:induction false} RunIsExplained(target: Bytes, w: World, events: seq<Event>)
    requires Possible(target, w, events) && Explained(w)
    ensures Explained(Final(target, w, events))
    decreases |events|
  {
    hide FilesAfter;
    if events != [] { RunIsExplained(target, Apply(target, w, events[0]), events[1..]); }
  }

  /** When every call is over, a file that was not there before is the target, or the temporary file of a call that
      crashed or of one that failed and could not remove it. */
  lemma LeftoversAreExplained(target: Bytes, w: World, events: seq<Event>, path: Bytes) returns (i: nat)
    requires Fresh(w) && Possible(target, w, events)
    requires path in Final(target, w, events).files && path !in w.files && path != target
    requires var f := Final(target, w, events); forall i :: 0 <= i < |f.writers| ==> f.writers[i].phase.Over?
    ensures i < |Final(target, w, events).writers| && LeftBehind(Final(target, w, events).writers[i])
    ensures path == Temp(target, Final(target, w, events).writers[i])
  {
    hide Possible, Final, Temp, Owned, Live;
    RunStaysTidy(target, w.files.Keys, w, events);
    RunIsExplained(target, w, events);
    i := Owner(target, Final(target, w, events), path);
  }

  /** Paths that are neither the target nor a temporary name are never touched. */
  lemma {:induction false} OtherPathsStay(target: Bytes, w: World, events: seq<Event>, path: Bytes)
    requires Possible(target, w, events) && path != target && forall p, n :: path != TempName(target, p, n)
    ensures Seen(Final(target, w, events), path) == Seen(w, path)
    decreases |events|
  {
    hide FilesAfter, TempName;
    if events != [] {
      if events[0].Act? { OtherFilesStay(target, w.files, w.writers[events[0].i], events[0].action, path); }
      OtherPathsStay(target, Apply(target, w, events[0]), events[1..], path);
    }
  }

  // ---- The call ---------------------------------------------------------------------------------

  /** What the operating system answers at each step of one call; `count` octets arrive before a write fails. */
  datatype Answers = Answers(directory: bool, open: bool, count: nat, write: bool, rename: bool, remove: bool)

  /** Only these two paths differ. */
  ghost predicate Elsewhere(target: Bytes, temp: Bytes, was: World, now: World) {
    forall path :: path != target && path != temp ==> Seen(now, path) == Seen(was, path)
  }

  /** The disk of one machine, and the files that a call on it sees. */
  class Disk {
    const target: Bytes
    var world: World

    constructor (target: Bytes, world: World)
      ensures this.target == target && this.world == world
    {
      this.target, this.world := target, world;
    }

    method Step(i: nat, a: Action)
      requires i < |world.writers| && CanAct(world.writers[i], a)
      modifies this
      ensures world == Apply(target, old(world), Act(i, a))
    {
      world := Apply(target, world, Act(i, a));
    }

    method Cleanup(i: nat, answers: Answers)
      requires i < |world.writers| && world.writers[i].phase.Failing?
      modifies this
      ensures world == Apply(target, old(world), Act(i, Remove(answers.remove)))
    {
      Step(i, Remove(answers.remove));
    }

    /** Call number `i`, with nothing else happening in between: one path through the protocol. The status is success
        exactly when the target was replaced; otherwise the target is untouched. The temporary file is gone unless a
        failure was followed by a failed removal, and no other path has changed. */
    method WriteBytesAtomic(i: nat, answers: Answers, ghost initial: Option<Bytes>) returns (status: Status)
      requires i < |world.writers| && world.writers[i].phase.Idle? && Inv(target, initial, world)
      modifies this
      ensures Inv(target, initial, world) && |world.writers| == |old(world.writers)|
      ensures world.writers[i].data == old(world).writers[i].data
      ensures world.writers[i].phase == Over(status, status == WriteFailed && !answers.remove) && status != Crashed
      ensures Elsewhere(target, Temp(target, world.writers[i]), old(world), world)
      ensures status == Ok ==> Seen(world, Temp(target, world.writers[i])) == None
      ensures status == WriteFailed && answers.remove ==> Seen(world, Temp(target, world.writers[i])) == None
      ensures status == Ok <==> target != [] && answers.directory && answers.open && answers.write && answers.rename
      ensures status == Ok ==> Seen(world, target) == Some(world.writers[i].data) && world.winner == Some(i)
      ensures status != Ok ==> Seen(world, target) == Seen(old(world), target) && world.winner == old(world.winner)
      ensures status == TargetUnusable <==> target == [] || !answers.directory || !answers.open
      ensures status == TargetUnusable ==> world.files == old(world.files)
    {
      hide Inv, FilesAfter, Holds, TargetOk, TempName, Elsewhere;
      var data := world.writers[i].data;
      ghost var was := world;
      NothingElsewhere(target, Temp(target, world.writers[i]), was);
      if target == [] || !answers.directory {
        StepKeeps(target, initial, was, Temp(target, world.writers[i]), world, i, Refuse);
        Step(i, Refuse);
        return TargetUnusable;
      }
      ghost var temp := TempName(target, world.writers[i].pid, Counter(world, world.writers[i].pid));
      NothingElsewhere(target, temp, was);
      StepKeeps(target, initial, was, temp, world, i, TakeName);
      Step(i, TakeName);
      if !answers.open {
        StepKeeps(target, initial, was, temp, world, i, OpenFails);
        Step(i, OpenFails);
        return TargetUnusable;
      }
      StepKeeps(target, initial, was, temp, world, i, Open);
      Step(i, Open);
      var count := if answers.write || answers.count > |data| then |data| else answers.count;
      StepKeeps(target, initial, was, temp, world, i, Write(count));
      Step(i, Write(count));
      ghost var written := world;
      status := Finish(i, answers, initial);
      ElsewhereJoins(target, temp, was, written, world);
    }

    method Finish(i: nat, answers: Answers, ghost initial: Option<Bytes>) returns (status: Status)
      requires i < |world.writers| && world.writers[i].phase.Writing? && Inv(target, initial, world)
      requires answers.write ==> world.writers[i].phase.count == |world.writers[i].data|
      modifies this
      ensures Inv(target, initial, world) && |world.writers| == |old(world.writers)|
      ensures status == Ok || status == WriteFailed
      ensures var left := status != Ok && !answers.remove;
        world.writers[i] == old(world).writers[i].(phase := Over(status, left))
      ensures Elsewhere(target, Temp(target, world.writers[i]), old(world), world)
      ensures status == Ok ==> Seen(world, Temp(target, world.writers[i])) == None
      ensures status == WriteFailed && answers.remove ==> Seen(world, Temp(target, world.writers[i])) == None
      ensures status == Ok <==> answers.write && answers.rename
      ensures status == Ok ==> Seen(world, target) == Some(world.writers[i].data) && world.winner == Some(i)
      ensures status != Ok ==> Seen(world, target) == Seen(old(world), target) && world.winner == old(world.winner)
    {
      hide Inv, FilesAfter, Holds, TargetOk, TempName, Elsewhere;
      ghost var was, temp := world, Temp(target, world.writers[i]);
      NothingElsewhere(target, temp, was);
      if !answers.write {
        StepKeeps(target, initial, was, temp, world, i, WriteFails);
        Step(i, WriteFails);
        StepKeeps(target, initial, was, temp, world, i, Remove(answers.remove));
        Cleanup(i, answers);
        return WriteFailed;
      }
      StepKeeps(target, initial, was, temp, world, i, Close);
      Step(i, Close);
      if !answers.rename {
        StepKeeps(target, initial, was, temp, world, i, RenameFails);
        Step(i, RenameFails);
        StepKeeps(target, initial, was, temp, world, i, Remove(answers.remove));
        Cleanup(i, answers);
        return WriteFailed;
      }
      StepKeeps(target, initial, was, temp, world, i, Rename);
      Step(i, Rename);
      status := Ok;
    }
  }

  lemma NothingElsewhere(target: Bytes, temp: Bytes, w: World)
    ensures Elsewhere(target, temp, w, w)
  {
  }

  lemma ElsewhereJoins(target: Bytes, temp: Bytes, a: World, b: World, c: World)
    requires Elsewhere(target, temp, a, b) && Elsewhere(target, temp, b, c)
    ensures Elsewhere(target, temp, a, c)
  {
  }

  /** A step keeps the invariant, and of the files it changes only the target (when it renames) and its own. */
  lemma StepKeeps(target: Bytes, initial: Option<Bytes>, was: World, temp: Bytes, w: World, i: nat, a: Action)
    requires Inv(target, initial, w) && i < |w.writers| && CanAct(w.writers[i], a)
    requires Elsewhere(target, temp, was, w) && (Live(w.writers[i]) ==> Temp(target, w.writers[i]) == temp)
    ensures Inv(target, initial, Apply(target, w, Act(i, a)))
    ensures Elsewhere(target, temp, was, Apply(target, w, Act(i, a)))
    ensures !a.Rename? ==> Seen(Apply(target, w, Act(i, a)), target) == Seen(w, target)
    ensures a.Rename? ==> Seen(Apply(target, w, Act(i, a)), target) == Some(w.writers[i].data)
    ensures a.Rename? || a == Remove(true) ==> Seen(Apply(target, w, Act(i, a)), temp) == None
    ensures a.Refuse? || a.TakeName? || a.OpenFails? ==> Apply(target, w, Act(i, a)).files == w.files
    ensures a.TakeName? || Temp(target, Apply(target, w, Act(i, a)).writers[i]) == Temp(target, w.writers[i])
  {
    hide Inv, Temp, TargetOk, Apart, Numbered, Holds, Elsewhere, FilesAfter;
    InvStays(target, initial, w, Act(i, a));
    CallHolds(target, initial, w, i);
    OnlyRenameReplaces(target, w, i, a);
    StepElsewhere(target, was, temp, w, i, a);
    TempSame(target, w.writers[i], a, Counter(w, w.writers[i].pid));
    FilesKept(target, w, i, a);
    if a.Rename? || a == Remove(true) { TempGoes(target, w, i, a); }
  }

  lemma CallHolds(target: Bytes, initial: Option<Bytes>, w: World, i: nat)
    requires Inv(target, initial, w) && i < |w.writers|
    ensures Holds(target, w, i)
  {
    hide Holds, TargetOk, Apart, Numbered;
  }

  lemma StepElsewhere(target: Bytes, was: World, temp: Bytes, w: World, i: nat, a: Action)
    requires i < |w.writers| && CanAct(w.writers[i], a) && Elsewhere(target, temp, was, w)
    requires Live(w.writers[i]) ==> Temp(target, w.writers[i]) == temp
    ensures Elsewhere(target, temp, was, Apply(target, w, Act(i, a)))
  {
    hide Temp, FilesAfter;
    forall path | path != target && path != temp ensures Seen(Apply(target, w, Act(i, a)), path) == Seen(was, path) {
      OtherFilesStay(target, w.files, w.writers[i], a, path);
    }
  }

  lemma FilesKept(target: Bytes, w: World, i: nat, a: Action)
    requires i < |w.writers| && CanAct(w.writers[i], a)
    ensures a.Refuse? || a.TakeName? || a.OpenFails? ==> Apply(target, w, Act(i, a)).files == w.files
  {
  }

  lemma TempGoes(target: Bytes, w: World, i: nat, a: Action)
    requires i < |w.writers| && CanAct(w.writers[i], a) && (a.Rename? || a == Remove(true))
    ensures Seen(Apply(target, w, Act(i, a)), Temp(target, w.writers[i])) == None
  {
    hide Temp;
    TempIsNotTarget(target, w.writers[i]);
  }
}
