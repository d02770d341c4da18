/**
 * Files kept under their digest: a save writes a partial file and renames it. Savers interleave step by step, any step can
 * fail, and the process can crash at any moment; a final name only ever holds the whole file.
 */
module FileStore {
  import opened Options

  type Bytes = seq<bv8>

  /** A digest as the store is given it. `digests` are those of the bytes saved; two of them differ when the bytes do. */
  type Digests = map<Bytes, string>

  ghost predicate Injective(d: Digests) {
    forall a, b :: a in d && b in d && d[a] == d[b] ==> a == b
  }

  datatype Name = Final(digest: string, extension: string) | Partial(digest: string, extension: string, unique: nat)

  type Disk = map<Name, Bytes>

  /** Where one save is: about to look, about to write, writing, about to rename, about to clean up, back, or failed. */
  datatype Point = Looking | Missing | Writing(written: nat) | Written | Cleaning(renamed: bool) | Returned | Failed

  datatype Saver = Saver(bytes: Bytes, digest: string, extension: string, unique: nat, point: Point)

  datatype State = State(disk: Disk, savers: seq<Saver>, next: nat)

  datatype Action =
    | Begin(bytes: Bytes, extension: string)
    | Look(saver: nat)
    | Open(saver: nat)
    | Write(saver: nat, more: nat)
    | Close(saver: nat)
    | Rename(saver: nat)
    | Fail(saver: nat)
    | Clean(saver: nat)
    | Crash

  const INIT := State(map[], [], 0)

  function FinalOf(s: Saver): Name {
    Final(s.digest, s.extension)
  }

  function PartialOf(s: Saver): Name {
    Partial(s.digest, s.extension, s.unique)
  }

  predicate LowerOrDigit(c: char) {
    'a' <= c <= 'z' || '0' <= c <= '9'
  }

  predicate Hex(c: char) {
    'a' <= c <= 'f' || '0' <= c <= '9'
  }

  /** The names a save takes; anything else is refused before it touches the disk. */
  predicate ValidName(digest: string, extension: string) {
    |digest| == 64 && (forall k :: 0 <= k < 64 ==> Hex(digest[k])) && extension != "" && forall k :: 0 <= k < |extension| ==> LowerOrDigit(extension[k])
  }

  function Moved(s: State, k: nat, point: Point, disk: Disk): State
    requires k < |s.savers|
  {
    s.(disk := disk, savers := s.savers[k := s.savers[k].(point := point)])
  }

  /** The name exists and has the size of the bytes. */
  predicate SameSize(disk: Disk, x: Saver) {
    FinalOf(x) in disk && |disk[FinalOf(x)]| == |x.bytes|
  }

  ghost predicate SaverStep(s: State, a: Action, k: nat, t: State)
    requires k < |s.savers|
  {
    var x := s.savers[k];
    match a
    case Look(_) => x.point.Looking? && t == Moved(s, k, if SameSize(s.disk, x) then Returned else Missing, s.disk)
    case Open(_) => x.point.Missing? && t == Moved(s, k, Writing(0), s.disk[PartialOf(x) := []])
    case Write(_, more) =>
      && x.point.Writing? && x.point.written + more <= |x.bytes|
      && t == Moved(s, k, Writing(x.point.written + more), s.disk[PartialOf(x) := x.bytes[..x.point.written + more]])
    case Close(_) => x.point.Writing? && x.point.written == |x.bytes| && t == Moved(s, k, Written, s.disk)
    case Rename(_) =>
      && x.point.Written? && PartialOf(x) in s.disk
      && t == Moved(s, k, Cleaning(true), (s.disk - {PartialOf(x)})[FinalOf(x) := s.disk[PartialOf(x)]])
    case Fail(_) => (x.point.Missing? || x.point.Writing? || x.point.Written?) && t == Moved(s, k, Cleaning(false), s.disk)
    case Clean(_) => x.point.Cleaning? && t == Moved(s, k, if x.point.renamed then Returned else Failed, s.disk - {PartialOf(x)})
    case _ => false
  }

  ghost predicate Step(d: Digests, s: State, a: Action, t: State) {
    match a
    case Begin(bytes, extension) =>
      && bytes in d && ValidName(d[bytes], extension)
      && t == s.(savers := s.savers + [Saver(bytes, d[bytes], extension, s.next, Looking)], next := s.next + 1)
    case Crash => t == s.(savers := [])
    case Look(k) => k < |s.savers| && SaverStep(s, a, k, t)
    case Open(k) => k < |s.savers| && SaverStep(s, a, k, t)
    case Write(k, _) => k < |s.savers| && SaverStep(s, a, k, t)
    case Close(k) => k < |s.savers| && SaverStep(s, a, k, t)
    case Rename(k) => k < |s.savers| && SaverStep(s, a, k, t)
    case Fail(k) => k < |s.savers| && SaverStep(s, a, k, t)
    case Clean(k) => k < |s.savers| && SaverStep(s, a, k, t)
  }

  // ---------------------------------------------------------------- the invariant

  /** A final name holds whole bytes with its digest. */
  ghost predicate Whole(d: Digests, disk: Disk, n: Name) {
    n.Final? && n in disk ==> disk[n] in d && d[disk[n]] == n.digest
  }

  ghost predicate FinalsWhole(d: Digests, disk: Disk) {
    forall n :: Whole(d, disk, n)
  }

  /** A saver's own partial file holds what it has written; once back, the final name is there and whole. */
  ghost predicate SaverWell(d: Digests, disk: Disk, x: Saver, next: nat) {
    && x.bytes in d && d[x.bytes] == x.digest && x.unique < next
    && (x.point.Writing? ==> x.point.written <= |x.bytes| && PartialOf(x) in disk && disk[PartialOf(x)] == x.bytes[..x.point.written])
    && (x.point.Written? ==> PartialOf(x) in disk && disk[PartialOf(x)] == x.bytes)
    && (x.point.Returned? || x.point == Cleaning(true) ==> FinalOf(x) in disk && disk[FinalOf(x)] == x.bytes)
  }

  ghost predicate Inv(d: Digests, s: State) {
    && FinalsWhole(d, s.disk)
    && (forall k :: 0 <= k < |s.savers| ==> SaverWell(d, s.disk, s.savers[k], s.next))
    && forall j, k :: 0 <= j < k < |s.savers| ==> s.savers[j].unique != s.savers[k].unique
  }

  /** What one saver's step may do to the disk: its own partial file, and its final name given its own bytes. */
  ghost predicate OwnChange(before: Disk, after: Disk, x: Saver) {
    && (forall n :: n in before && n != PartialOf(x) && n != FinalOf(x) ==> n in after && after[n] == before[n])
    && (forall n :: n in after && n != PartialOf(x) && n != FinalOf(x) ==> n in before)
    && (FinalOf(x) in before ==> FinalOf(x) in after)
    && (FinalOf(x) in after ==> after[FinalOf(x)] == x.bytes || (FinalOf(x) in before && after[FinalOf(x)] == before[FinalOf(x)]))
  }

  lemma StepOwns(d: Digests, s: State, a: Action, k: nat, t: State)
    requires Inv(d, s) && k < |s.savers| && SaverStep(s, a, k, t)
    ensures OwnChange(s.disk, t.disk, s.savers[k])
    ensures |t.savers| == |s.savers| && t.next == s.next && t.savers == s.savers[k := s.savers[k].(point := t.savers[k].point)]
  {
  }

  lemma StepWellSelf(d: Digests, s: State, a: Action, k: nat, t: State)
    requires Injective(d) && Inv(d, s) && k < |s.savers| && SaverStep(s, a, k, t)
    ensures SaverWell(d, t.disk, t.savers[k], t.next)
  {
    var x := s.savers[k];
    assert SaverWell(d, s.disk, x, s.next);
    assert Whole(d, s.disk, FinalOf(x));
    assert x.bytes[..|x.bytes|] == x.bytes;
  }

  lemma StepWellOther(d: Digests, before: Disk, after: Disk, x: Saver, y: Saver, next: nat)
    requires Injective(d) && SaverWell(d, before, x, next) && SaverWell(d, before, y, next) && x.unique != y.unique
    requires OwnChange(before, after, x)
    ensures SaverWell(d, after, y, next)
  {
  }

  lemma FinalsStayWhole(d: Digests, before: Disk, after: Disk, x: Saver)
    requires FinalsWhole(d, before) && OwnChange(before, after, x) && x.bytes in d && d[x.bytes] == x.digest
    ensures FinalsWhole(d, after)
  {
    forall n ensures Whole(d, after, n) {
      assert Whole(d, before, n);
    }
  }

  lemma SaverStepKeeps(d: Digests, s: State, a: Action, k: nat, t: State)
    requires Injective(d) && Inv(d, s) && k < |s.savers| && SaverStep(s, a, k, t)
    ensures Inv(d, t)
  {
    StepOwns(d, s, a, k, t);
    assert SaverWell(d, s.disk, s.savers[k], s.next);
    FinalsStayWhole(d, s.disk, t.disk, s.savers[k]);
    forall j | 0 <= j < |t.savers| ensures SaverWell(d, t.disk, t.savers[j], t.next) {
      if j == k {
        StepWellSelf(d, s, a, k, t);
      } else {
        assert SaverWell(d, s.disk, s.savers[j], s.next);
        StepWellOther(d, s.disk, t.disk, s.savers[k], s.savers[j], s.next);
      }
    }
  }

  lemma StepKeeps(d: Digests, s: State, a: Action, t: State)
    requires Injective(d) && Inv(d, s) && Step(d, s, a, t)
    ensures Inv(d, t)
  {
    match a
    case Begin(bytes, extension) =>
      forall k | 0 <= k < |t.savers| ensures SaverWell(d, t.disk, t.savers[k], t.next) {
        assert k < |s.savers| ==> SaverWell(d, s.disk, s.savers[k], s.next);
      }
      assert forall k :: 0 <= k < |s.savers| ==> SaverWell(d, s.disk, s.savers[k], s.next);
    case Crash =>
    case Look(k) => SaverStepKeeps(d, s, a, k, t);
    case Open(k) => SaverStepKeeps(d, s, a, k, t);
    case Write(k, _) => SaverStepKeeps(d, s, a, k, t);
    case Close(k) => SaverStepKeeps(d, s, a, k, t);
    case Rename(k) => SaverStepKeeps(d, s, a, k, t);
    case Fail(k) => SaverStepKeeps(d, s, a, k, t);
    case Clean(k) => SaverStepKeeps(d, s, a, k, t);
  }

  // ---------------------------------------------------------------- over whole runs

  ghost predicate StepAt(d: Digests, h: seq<Action>, run: seq<State>, n: nat)
    requires n < |h| && |run| == |h| + 1
  {
    Step(d, run[n], h[n], run[n + 1])
  }

  ghost predicate Run(d: Digests, h: seq<Action>, run: seq<State>) {
    Injective(d) && |run| == |h| + 1 && run[0] == INIT && forall n :: 0 <= n < |h| ==> StepAt(d, h, run, n)
  }

  lemma {:induction false} RunKeeps(d: Digests, h: seq<Action>, run: seq<State>, n: nat)
    requires Run(d, h, run) && n <= |h|
    ensures Inv(d, run[n])
  {
    if n > 0 {
      RunKeeps(d, h, run, n - 1);
      assert StepAt(d, h, run, n - 1);
      StepKeeps(d, run[n - 1], h[n - 1], run[n]);
    }
  }

  // Under any interleaving, failure and crash: every final name holds whole bytes with its digest.
  lemma FinalNameHoldsTheWholeFile(d: Digests, h: seq<Action>, run: seq<State>, n: nat, name: Name)
    requires Run(d, h, run) && n <= |h| && name.Final? && name in run[n].disk
    ensures run[n].disk[name] in d && d[run[n].disk[name]] == name.digest
  {
    RunKeeps(d, h, run, n);
    assert Whole(d, run[n].disk, name);
  }

  lemma StepKeepsFinals(d: Digests, s: State, a: Action, t: State, name: Name)
    requires Injective(d) && Inv(d, s) && Step(d, s, a, t) && name.Final? && name in s.disk
    ensures name in t.disk && t.disk[name] == s.disk[name]
  {
    assert Whole(d, s.disk, name);
    match a
    case Rename(k) => assert SaverWell(d, s.disk, s.savers[k], s.next);
    case _ =>
  }

  // Once a final name exists it exists for good and its bytes never change.
  lemma {:induction false} FinalNameIsForGood(d: Digests, h: seq<Action>, run: seq<State>, m: nat, n: nat, name: Name)
    requires Run(d, h, run) && m <= n <= |h| && name.Final? && name in run[m].disk
    ensures name in run[n].disk && run[n].disk[name] == run[m].disk[name]
    decreases n - m
  {
    if m < n {
      FinalNameIsForGood(d, h, run, m, n - 1, name);
      RunKeeps(d, h, run, n - 1);
      assert StepAt(d, h, run, n - 1);
      StepKeepsFinals(d, run[n - 1], h[n - 1], run[n], name);
    }
  }

  // Every path a save returned exists, then and ever after, and holds the bytes saved.
  lemma ReturnedPathExists(d: Digests, h: seq<Action>, run: seq<State>, m: nat, n: nat, k: nat)
    requires Run(d, h, run) && m <= n <= |h| && k < |run[m].savers| && run[m].savers[k].point.Returned?
    ensures FinalOf(run[m].savers[k]) in run[n].disk && run[n].disk[FinalOf(run[m].savers[k])] == run[m].savers[k].bytes
  {
    RunKeeps(d, h, run, m);
    assert SaverWell(d, run[m].disk, run[m].savers[k], run[m].next);
    FinalNameIsForGood(d, h, run, m, n, FinalOf(run[m].savers[k]));
  }

  /** Some saver is still to clean the partial file up. */
  ghost predicate Owned(s: State, name: Name) {
    exists k :: 0 <= k < |s.savers| && PartialOf(s.savers[k]) == name && (s.savers[k].point.Writing? || s.savers[k].point.Written? || s.savers[k].point.Cleaning?)
  }

  lemma StepOwned(d: Digests, s: State, a: Action, t: State, name: Name)
    requires Step(d, s, a, t) && !a.Crash? && name.Partial? && name in t.disk && (name in s.disk ==> Owned(s, name))
    ensures Owned(t, name)
  {
    if name in s.disk {
      var k :| 0 <= k < |s.savers| && PartialOf(s.savers[k]) == name && (s.savers[k].point.Writing? || s.savers[k].point.Written? || s.savers[k].point.Cleaning?);
      assert PartialOf(t.savers[k]) == name;
    } else {
      assert a.Open? || a.Write?;
      assert PartialOf(t.savers[a.saver]) == name;
    }
  }

  // Without a crash no partial file is left behind: each is some running save's to clean up.
  lemma {:induction false} OnlyACrashLeavesPartials(d: Digests, h: seq<Action>, run: seq<State>, n: nat, name: Name)
    requires Run(d, h, run) && n <= |h| && (forall m :: 0 <= m < n ==> !h[m].Crash?) && name.Partial? && name in run[n].disk
    ensures Owned(run[n], name)
  {
    if n > 0 {
      if name in run[n - 1].disk {
        OnlyACrashLeavesPartials(d, h, run, n - 1, name);
      }
      assert StepAt(d, h, run, n - 1);
      StepOwned(d, run[n - 1], h[n - 1], run[n], name);
    }
  }

  // ---------------------------------------------------------------- one save

  // A save that finds nothing is six of these steps: back with the bytes under the final name and no partial file.
  lemma SaveIsSixSteps(s: State, k: nat) returns (run: seq<State>)
    requires k < |s.savers| && s.savers[k].point.Looking? && !SameSize(s.disk, s.savers[k]) && PartialOf(s.savers[k]) !in s.disk
    ensures |run| == 7 && run[0] == s && forall n :: 0 <= n < 7 ==> |run[n].savers| == |s.savers|
    ensures SaverStep(s, Look(k), k, run[1]) && SaverStep(run[1], Open(k), k, run[2]) && SaverStep(run[2], Write(k, |s.savers[k].bytes|), k, run[3])
    ensures SaverStep(run[3], Close(k), k, run[4]) && SaverStep(run[4], Rename(k), k, run[5]) && SaverStep(run[5], Clean(k), k, run[6])
    ensures run[6].savers[k].point.Returned? && run[6].disk == s.disk[FinalOf(s.savers[k]) := s.savers[k].bytes]
  {
    var x, p := s.savers[k], PartialOf(s.savers[k]);
    var looked := Moved(s, k, Missing, s.disk);
    var started := Moved(looked, k, Writing(0), s.disk[p := []]);
    var wrote := Moved(started, k, Writing(|x.bytes|), started.disk[p := x.bytes[..|x.bytes|]]);
    var closed := Moved(wrote, k, Written, wrote.disk);
    var renamed := Moved(closed, k, Cleaning(true), (closed.disk - {p})[FinalOf(x) := closed.disk[p]]);
    run := [s, looked, started, wrote, closed, renamed, Moved(renamed, k, Returned, renamed.disk - {p})];
    assert x.bytes[..|x.bytes|] == x.bytes;
  }

  /** Which of a save's effects fails, if any: the write after some bytes, or the rename. */
  datatype Fault = NoFault | WriteFails(after: nat) | RenameFails

  class Store {
    var files: Disk

    constructor ()
      ensures files == map[]
    {
      files := map[];
    }

    /** `save`, alone on the disk: the path, or None when it failed; the partial file is cleaned up either way. */
    method Save(bytes: Bytes, digest: string, extension: string, unique: nat, fault: Fault) returns (path: Option<Name>)
      requires Partial(digest, extension, unique) !in files
      modifies this
      ensures path.Some? ==> ValidName(digest, extension) && path.value == Final(digest, extension) && path.value in files
      ensures path.Some? && (path.value !in old(files) || |old(files)[path.value]| != |bytes|) ==> fault.NoFault? && files == old(files)[path.value := bytes]
      ensures path.Some? && path.value in old(files) && |old(files)[path.value]| == |bytes| ==> files == old(files)
      ensures path.None? ==> files == old(files) && (!ValidName(digest, extension) || !fault.NoFault?)
      ensures path.Some? ==> |digest| == 64 && |extension| >= 1
      ensures path.Some? ==> forall k :: 0 <= k < 64 ==> '0' <= digest[k] <= '9' || 'a' <= digest[k] <= 'f'
      ensures path.Some? ==> forall k :: 0 <= k < |extension| ==> '0' <= extension[k] <= '9' || 'a' <= extension[k] <= 'z'
    {
      if !ValidName(digest, extension) {
        return None;
      }
      var final, partial := Final(digest, extension), Partial(digest, extension, unique);
      if final in files && |files[final]| == |bytes| {
        return Some(final);
      }
      path := None;
      match fault {
        case WriteFails(after) =>
          files := files[partial := if after < |bytes| then bytes[..after] else bytes];
        case RenameFails =>
          files := files[partial := bytes];
        case NoFault =>
          files := files[partial := bytes];
          files := (files - {partial})[final := files[partial]];
          path := Some(final);
      }
      files := files - {partial};
    }
  }
}
