// A file system with separate visible and durable contents. A name that was
// changed since the directory was last synchronised may, after a power loss,
// refer to any file it has referred to since; a file that was not flushed since
// it was last written may hold anything.
module DurableFiles {
  import opened Basics

  datatype Path = StateFile | StateTemporary | LatchFile | LatchTemporary {
    function Temporary(): Path {
      if this.StateFile? || this.StateTemporary? then StateTemporary else LatchTemporary
    }
  }

  // A file on disk; it is only ever linked from a name of one family, the target and its temporary.
  datatype File = File(family: Path, number: nat)

  datatype Content<+D> = Whole(document: D) | Torn

  // What a power loss can leave at a name.
  datatype Survivor<+D> = Gone | Kept(content: Content<D>)

  datatype Disk<D(!new)> = Disk(
    entries: map<Path, File>,
    journal: map<Path, set<Option<File>>>,
    contents: map<File, Content<D>>,
    flushed: set<File>,
    nextFile: nat)
  {
    function Lookup(p: Path): Option<File> {
      if p in entries then Some(entries[p]) else None
    }

    ghost predicate Valid() {
      && (forall p: Path :: p in journal && Lookup(p) in journal[p])
      && (forall p: Path, f: File :: p in journal && Some(f) in journal[p] ==>
          f in contents && f.family == p.Temporary())
      && (forall f :: f in contents ==> f.number < nextFile)
    }

    function Observe(p: Path): Option<Content<D>>
      requires Valid()
    {
      if p in entries then assert Lookup(p) in journal[p]; Some(contents[entries[p]]) else None
    }

    function Surviving(file: Option<File>): Survivor<D>
      requires file.Some? ==> file.value in contents
    {
      match file
      case None => Gone
      case Some(f) => Kept(if f in flushed then contents[f] else Torn)
    }

    ghost function Survivors(p: Path): set<Survivor<D>>
      requires Valid()
    {
      set e | e in journal[p] :: Surviving(e)
    }

    function NewFile(p: Path): File {
      File(p.Temporary(), nextFile)
    }

    function Create(p: Path): Disk<D> {
      this.(entries := entries[p := NewFile(p)],
            journal := if p in journal then journal[p := journal[p] + {Some(NewFile(p))}] else journal,
            contents := contents[NewFile(p) := Torn],
            nextFile := nextFile + 1)
    }

    function Write(file: File, c: Content<D>): Disk<D> {
      this.(contents := contents[file := c], flushed := flushed - {file})
    }

    function Flush(file: File): Disk<D> {
      this.(flushed := flushed + {file})
    }

    function Rename(from: Path, to: Path): Disk<D>
      requires from in entries && from in journal && to in journal && from != to && from.Temporary() == to.Temporary()
    {
      this.(entries := (entries - {from})[to := entries[from]],
            journal := journal[from := journal[from] + {None}][to := journal[to] + {Some(entries[from])}])
    }

    function Remove(p: Path): Disk<D>
      requires p in journal
    {
      this.(entries := entries - {p}, journal := journal[p := journal[p] + {None}])
    }

    function SyncNames(): Disk<D> {
      this.(journal := map p | p in journal :: {Lookup(p)})
    }
  }

  // What a reader can find at a name after a power loss.
  ghost predicate CanBecome<D(!new)>(s: Survivor<D>, seen: Option<Content<D>>) {
    match s
    case Gone => seen.None?
    case Kept(Torn) => seen.Some?
    case Kept(c) => seen == Some(c)
  }

  ghost predicate MayFind<D(!new)>(before: Disk<D>, p: Path, seen: Option<Content<D>>)
    requires before.Valid()
  {
    exists s :: s in before.Survivors(p) && CanBecome(s, seen)
  }

  // The disk found at the next start: every name holds one of its survivors, durably.
  ghost predicate CrashesTo<D(!new)>(before: Disk<D>, after: Disk<D>)
    requires before.Valid()
  {
    && after.Valid()
    && (forall p: Path :: MayFind(before, p, after.Observe(p)))
    && (forall p: Path :: after.journal[p] == {after.Lookup(p)})
    && (forall p: Path :: p in after.entries ==> after.entries[p] in after.flushed)
  }

  function AsSurvivor<D>(seen: Option<Content<D>>): Survivor<D> {
    match seen
    case None => Gone
    case Some(c) => Kept(c)
  }

  // The only thing a power loss can leave at a name is what a reader sees there now.
  ghost predicate Settled<D(!new)>(d: Disk<D>, p: Path)
    requires d.Valid()
  {
    d.Survivors(p) == {AsSurvivor(d.Observe(p))}
  }

  // A name shows, and can keep, nothing but what it showed or could keep in base, or one of more.
  ghost predicate PathWithin<D(!new)>(base: Disk<D>, now: Disk<D>, p: Path, more: set<Survivor<D>>)
    requires base.Valid() && now.Valid()
  {
    && AsSurvivor(now.Observe(p)) in {AsSurvivor(base.Observe(p))} + more
    && now.Survivors(p) <= base.Survivors(p) + {AsSurvivor(base.Observe(p))} + more
  }

  ghost predicate Within<D(!new)>(base: Disk<D>, now: Disk<D>, state: set<Survivor<D>>, latch: set<Survivor<D>>)
    requires base.Valid()
  {
    now.Valid() && PathWithin(base, now, StateFile, state) && PathWithin(base, now, LatchFile, latch)
  }

  function Last<T>(s: seq<T>): T
    requires s != []
  {
    s[|s| - 1]
  }

  // Every disk of an operation, from the one it started on: each is one at which a power loss may strike.
  ghost predicate Bounded<D(!new)>(start: seq<Disk<D>>, end: seq<Disk<D>>, state: set<Survivor<D>>,
                                   latch: set<Survivor<D>>)
  {
    && start != [] && start <= end && Last(start).Valid()
    && forall k | |start| - 1 <= k < |end| :: Within(Last(start), end[k], state, latch)
  }

  lemma BoundedAtStart<D(!new)>(start: seq<Disk<D>>, state: set<Survivor<D>>, latch: set<Survivor<D>>)
    requires start != [] && Last(start).Valid()
    ensures Bounded(start, start, state, latch)
  {
  }

  lemma BoundedStep<D(!new)>(start: seq<Disk<D>>, end: seq<Disk<D>>, now: Disk<D>, state: set<Survivor<D>>,
                             latch: set<Survivor<D>>)
    requires Bounded(start, end, state, latch) && Within(Last(start), now, state, latch)
    ensures Bounded(start, end + [now], state, latch)
  {
  }

  lemma WithinThenWithin<D(!new)>(base: Disk<D>, middle: Disk<D>, now: Disk<D>,
                                  state: set<Survivor<D>>, latch: set<Survivor<D>>,
                                  stateNext: set<Survivor<D>>, latchNext: set<Survivor<D>>)
    requires base.Valid() && Within(base, middle, state, latch) && Within(middle, now, stateNext, latchNext)
    ensures Within(base, now, state + stateNext, latch + latchNext)
  {
  }

  lemma BoundedWeakens<D(!new)>(start: seq<Disk<D>>, end: seq<Disk<D>>, state: set<Survivor<D>>,
                                latch: set<Survivor<D>>, moreState: set<Survivor<D>>, moreLatch: set<Survivor<D>>)
    requires Bounded(start, end, state, latch) && state <= moreState && latch <= moreLatch
    ensures Bounded(start, end, moreState, moreLatch)
  {
  }

  // What a later part of an operation may do adds to what an earlier part may have done.
  lemma PartsAreBounded<D(!new)>(start: seq<Disk<D>>, middle: seq<Disk<D>>, end: seq<Disk<D>>,
                                 state: set<Survivor<D>>, latch: set<Survivor<D>>,
                                 stateNext: set<Survivor<D>>, latchNext: set<Survivor<D>>,
                                 stateAll: set<Survivor<D>>, latchAll: set<Survivor<D>>)
    requires Bounded(start, middle, state, latch) && Bounded(middle, end, stateNext, latchNext)
    requires state + stateNext <= stateAll && latch + latchNext <= latchAll
    ensures Bounded(start, end, stateAll, latchAll)
  {
    var base := Last(start);
    var last := Last(middle);
    forall k | |start| - 1 <= k < |end| ensures Within(base, end[k], stateAll, latchAll) {
      if k < |middle| {
        assert end[k] == middle[k];
      } else {
        WithinThenWithin(base, last, end[k], state, latch, stateNext, latchNext);
      }
    }
  }

  // now differs from base only by an attempt to replace target with document: target is
  // old or new both to readers and after a power loss, and other names are not at risk.
  ghost predicate Replacing<D(!new)>(base: Disk<D>, now: Disk<D>, target: Path, document: D)
    requires base.Valid()
  {
    && now.Valid()
    && now.Observe(target) in {base.Observe(target), Some(Whole(document))}
    && now.Survivors(target) <= base.Survivors(target) + {Kept(Whole(document))}
    && Undisturbed(base, now, target)
  }

  // No name but target and its temporary file is disturbed.
  ghost predicate Undisturbed<D(!new)>(base: Disk<D>, now: Disk<D>, target: Path)
    requires base.Valid() && now.Valid()
  {
    forall q: Path | q != target && q != target.Temporary() ::
      now.Observe(q) == base.Observe(q) && now.Survivors(q) <= base.Survivors(q)
  }

  // The temporary file is being prepared: target is as it was, and file is reachable
  // through the temporary name only.
  ghost predicate Staged<D(!new)>(base: Disk<D>, now: Disk<D>, target: Path, file: File)
    requires base.Valid()
  {
    && now.Valid()
    && now.Observe(target) == base.Observe(target)
    && now.Survivors(target) <= base.Survivors(target)
    && Undisturbed(base, now, target)
    && file in now.contents
    && now.Lookup(target.Temporary()) == Some(file)
    && forall q: Path | q != target.Temporary() :: Some(file) !in now.journal[q]
  }

  lemma StagedIsReplacing<D(!new)>(base: Disk<D>, now: Disk<D>, target: Path, file: File, document: D)
    requires base.Valid() && Staged(base, now, target, file)
    ensures Replacing(base, now, target, document)
  {
  }

  // A name that still refers to the same files, unchanged, shows and can keep the same.
  lemma SameName<D(!new)>(now: Disk<D>, next: Disk<D>, q: Path)
    requires now.Valid() && next.Valid()
    requires next.Lookup(q) == now.Lookup(q) && next.journal[q] == now.journal[q]
    requires forall f | Some(f) in now.journal[q] ::
               next.contents[f] == now.contents[f] && (f in next.flushed <==> f in now.flushed)
    ensures next.Observe(q) == now.Observe(q) && next.Survivors(q) == now.Survivors(q)
  {
  }

  lemma RemoveIsApart<D(!new)>(now: Disk<D>, p: Path)
    requires now.Valid()
    ensures now.Remove(p).Valid()
    ensures forall q: Path | q != p :: now.Remove(p).Observe(q) == now.Observe(q)
    ensures forall q: Path | q != p :: now.Remove(p).Survivors(q) == now.Survivors(q)
  {
  }

  // Removing the temporary file keeps a replacement a replacement.
  lemma RemoveTemporaryKeeps<D(!new)>(base: Disk<D>, now: Disk<D>, target: Path, document: D)
    requires base.Valid() && Replacing(base, now, target, document) && target != target.Temporary()
    ensures Replacing(base, now.Remove(target.Temporary()), target, document)
    ensures now.Remove(target.Temporary()).Observe(target) == now.Observe(target)
    ensures now.Remove(target.Temporary()).Survivors(target) == now.Survivors(target)
  {
    RemoveIsApart(now, target.Temporary());
    hide Disk.Survivors, Disk.Observe, Disk.Valid;
  }

  lemma CreatedIsValid<D(!new)>(now: Disk<D>, p: Path)
    requires now.Valid()
    ensures now.Create(p).Valid() && now.NewFile(p) !in now.contents
  {
    assert now.Create(p).journal[p] == now.journal[p] + {Some(now.NewFile(p))};
  }

  lemma CreateIsValid<D(!new)>(now: Disk<D>, p: Path)
    requires now.Valid()
    ensures now.Create(p).Valid()
    ensures forall q: Path | q != p :: now.Create(p).Observe(q) == now.Observe(q)
    ensures forall q: Path | q != p :: now.Create(p).Survivors(q) == now.Survivors(q)
  {
    CreatedIsValid(now, p);
    forall q: Path | q != p
      ensures now.Create(p).Observe(q) == now.Observe(q) && now.Create(p).Survivors(q) == now.Survivors(q)
    {
      SameName(now, now.Create(p), q);
    }
  }

  lemma RenamedIsValid<D(!new)>(now: Disk<D>, from: Path, to: Path)
    requires now.Valid() && from in now.entries && from != to && from.Temporary() == to.Temporary()
    ensures from in now.journal && to in now.journal && now.Rename(from, to).Valid()
  {
    var renamed := now.Rename(from, to);
    assert now.Lookup(from) in now.journal[from];
    assert renamed.journal[to] == now.journal[to] + {Some(now.entries[from])};
    assert renamed.journal[from] == now.journal[from] + {None};
  }

  lemma RenameIsValid<D(!new)>(now: Disk<D>, from: Path, to: Path)
    requires now.Valid() && from in now.entries && from != to && from.Temporary() == to.Temporary()
    ensures now.Rename(from, to).Valid()
    ensures forall q: Path | q != from && q != to :: now.Rename(from, to).Observe(q) == now.Observe(q)
    ensures forall q: Path | q != from && q != to :: now.Rename(from, to).Survivors(q) == now.Survivors(q)
    ensures now.Rename(from, to).Observe(to) == now.Observe(from)
    ensures now.Rename(from, to).Survivors(to) == now.Survivors(to) + {now.Surviving(now.Lookup(from))}
  {
    RenamedIsValid(now, from, to);
    forall q: Path | q != from && q != to
      ensures now.Rename(from, to).Observe(q) == now.Observe(q)
      ensures now.Rename(from, to).Survivors(q) == now.Survivors(q)
    {
      SameName(now, now.Rename(from, to), q);
    }
    assert now.Lookup(from) in now.journal[from];
    assert now.Rename(from, to).journal[to] == now.journal[to] + {Some(now.entries[from])};
  }

  lemma CreatedIsApart<D(!new)>(now: Disk<D>, p: Path)
    requires now.Valid()
    ensures now.Create(p).Valid()
    ensures forall q: Path | q != p :: Some(now.NewFile(p)) !in now.Create(p).journal[q]
  {
    CreatedIsValid(now, p);
    forall q: Path | q != p ensures now.Create(p).journal[q] == now.journal[q] {
    }
  }

  lemma CreateStages<D(!new)>(base: Disk<D>, now: Disk<D>, target: Path, document: D)
    requires base.Valid() && now.Valid() && target != target.Temporary()
    requires now.Observe(target) == base.Observe(target)
    requires now.Survivors(target) <= base.Survivors(target)
    requires Undisturbed(base, now, target)
    requires target.Temporary() !in now.entries
    ensures Staged(base, now.Create(target.Temporary()), target, now.NewFile(target))
  {
    CreateIsValid(now, target.Temporary());
    CreatedIsApart(now, target.Temporary());
    assert target.Temporary().Temporary() == target.Temporary();
    hide Disk.Survivors, Disk.Observe, Disk.Valid;
  }

  ghost predicate ChangesOnly<D(!new)>(now: Disk<D>, next: Disk<D>, file: File) {
    && next.entries == now.entries && next.journal == now.journal && next.nextFile == now.nextFile
    && next.contents.Keys == now.contents.Keys
    && forall f | f in now.contents && f != file ::
         next.contents[f] == now.contents[f] && (f in next.flushed <==> f in now.flushed)
  }

  lemma FileChangeIsApart<D(!new)>(now: Disk<D>, next: Disk<D>, file: File, temporary: Path)
    requires now.Valid() && ChangesOnly(now, next, file)
    requires forall q: Path | q != temporary :: Some(file) !in now.journal[q]
    ensures next.Valid()
    ensures forall q: Path | q != temporary :: next.Observe(q) == now.Observe(q)
    ensures forall q: Path | q != temporary :: next.Survivors(q) == now.Survivors(q)
  {
    assert next.Valid() by {
      forall p: Path ensures next.Lookup(p) == now.Lookup(p) { }
    }
    forall q: Path | q != temporary
      ensures next.Observe(q) == now.Observe(q) && next.Survivors(q) == now.Survivors(q)
    {
      SameName(now, next, q);
    }
  }

  // Writing or flushing a file that only the temporary name refers to keeps it staged.
  lemma FileChangeStays<D(!new)>(base: Disk<D>, now: Disk<D>, next: Disk<D>, target: Path, file: File)
    requires base.Valid() && Staged(base, now, target, file) && target != target.Temporary()
    requires ChangesOnly(now, next, file)
    ensures Staged(base, next, target, file)
  {
    FileChangeIsApart(now, next, file, target.Temporary());
    hide Disk.Survivors, Disk.Observe, Disk.Valid;
  }

  lemma WritingStays<D(!new)>(base: Disk<D>, now: Disk<D>, target: Path, file: File, c: Content<D>)
    requires base.Valid() && Staged(base, now, target, file) && target != target.Temporary()
    ensures Staged(base, now.Write(file, c), target, file)
    ensures now.Write(file, c).contents[file] == c
  {
    hide Undisturbed;
    FileChangeStays(base, now, now.Write(file, c), target, file);
  }

  lemma FlushingStays<D(!new)>(base: Disk<D>, now: Disk<D>, target: Path, file: File)
    requires base.Valid() && Staged(base, now, target, file) && target != target.Temporary()
    ensures Staged(base, now.Flush(file), target, file)
  {
    hide Undisturbed;
    FileChangeStays(base, now, now.Flush(file), target, file);
  }

  lemma RenameReplaces<D(!new)>(base: Disk<D>, now: Disk<D>, target: Path, file: File, document: D)
    requires base.Valid() && Staged(base, now, target, file) && target != target.Temporary()
    requires file in now.flushed && now.contents[file] == Whole(document)
    ensures Replacing(base, now.Rename(target.Temporary(), target), target, document)
    ensures now.Rename(target.Temporary(), target).Observe(target) == Some(Whole(document))
    ensures now.Rename(target.Temporary(), target).Lookup(target) == Some(file)
    ensures file in now.Rename(target.Temporary(), target).flushed
  {
    RenameIsValid(now, target.Temporary(), target);
  }

  // Synchronising names never adds a survivor.
  lemma SyncNamesShrinks<D(!new)>(now: Disk<D>, p: Path)
    requires now.Valid()
    ensures now.SyncNames().Valid()
    ensures now.SyncNames().Observe(p) == now.Observe(p)
    ensures now.SyncNames().Survivors(p) == {now.Surviving(now.Lookup(p))}
    ensures now.SyncNames().Survivors(p) <= now.Survivors(p)
  {
  }

  lemma SyncNamesKeepsReplacing<D(!new)>(base: Disk<D>, now: Disk<D>, target: Path, document: D)
    requires base.Valid() && Replacing(base, now, target, document)
    ensures Replacing(base, now.SyncNames(), target, document)
  {
    forall q: Path ensures now.SyncNames().Valid() && now.SyncNames().Observe(q) == now.Observe(q)
                        && now.SyncNames().Survivors(q) <= now.Survivors(q)
    {
      SyncNamesShrinks(now, q);
    }
    SyncNamesShrinks(now, target);
  }

  // Flushing what a name shows, or removing a name, is within the bounds of an operation.
  lemma FlushingIsWithin<D(!new)>(base: Disk<D>, file: File)
    requires base.Valid() && base.Lookup(StateFile) == Some(file)
    ensures Within(base, base.Flush(file), {}, {})
  {
  }

  lemma RemovingIsWithin<D(!new)>(base: Disk<D>)
    requires base.Valid()
    ensures Within(base, base.Remove(LatchFile), {}, {Gone})
  {
  }

  lemma SyncNamesIsWithin<D(!new)>(base: Disk<D>)
    requires base.Valid()
    ensures Within(base, base.SyncNames(), {}, {})
  {
    SyncNamesShrinks(base, StateFile);
    SyncNamesShrinks(base, LatchFile);
  }

  lemma ReplacingIsWithin<D(!new)>(base: Disk<D>, now: Disk<D>, target: Path, document: D)
    requires base.Valid() && Replacing(base, now, target, document)
    ensures target == StateFile ==> Within(base, now, {Kept(Whole(document))}, {})
    ensures target == LatchFile ==> Within(base, now, {}, {Kept(Whole(document))})
  {
  }

  // Every disk of a replacement, from the one it started on.
  ghost predicate AllReplacing<D(!new)>(start: seq<Disk<D>>, end: seq<Disk<D>>, target: Path, document: D) {
    && start != [] && start <= end && Last(start).Valid()
    && forall k | |start| - 1 <= k < |end| :: Replacing(Last(start), end[k], target, document)
  }

  lemma ReplacingStep<D(!new)>(start: seq<Disk<D>>, end: seq<Disk<D>>, now: Disk<D>, target: Path, document: D)
    requires AllReplacing(start, end, target, document) && Replacing(Last(start), now, target, document)
    ensures AllReplacing(start, end + [now], target, document)
  {
  }

  lemma StagedStep<D(!new)>(start: seq<Disk<D>>, end: seq<Disk<D>>, now: Disk<D>, target: Path, file: File, document: D)
    requires AllReplacing(start, end, target, document) && Staged(Last(start), now, target, file)
    ensures AllReplacing(start, end + [now], target, document)
  {
  }

  lemma ReplacingIsBounded<D(!new)>(start: seq<Disk<D>>, end: seq<Disk<D>>, target: Path, document: D)
    requires AllReplacing(start, end, target, document)
    ensures target == StateFile ==> Bounded(start, end, {Kept(Whole(document))}, {})
    ensures target == LatchFile ==> Bounded(start, end, {}, {Kept(Whole(document))})
  {
    forall k | |start| - 1 <= k < |end|
      ensures target == StateFile ==> Within(Last(start), end[k], {Kept(Whole(document))}, {})
      ensures target == LatchFile ==> Within(Last(start), end[k], {}, {Kept(Whole(document))})
    {
      ReplacingIsWithin(Last(start), end[k], target, document);
    }
  }

  // A lucky power loss loses nothing.
  lemma VisibleCanSurvive<D(!new)>(before: Disk<D>)
    requires before.Valid()
    ensures CrashesTo(before, before.SyncNames().(flushed := before.contents.Keys))
  {
    var after := before.SyncNames().(flushed := before.contents.Keys);
    forall p: Path
      ensures before.Surviving(before.Lookup(p)) in before.Survivors(p)
      ensures after.journal[p] == {after.Lookup(p)} && after.Observe(p) == before.Observe(p)
      ensures MayFind(before, p, after.Observe(p))
      ensures p in after.entries ==> after.entries[p] in after.flushed
    {
      assert before.Lookup(p) in before.journal[p];
      assert CanBecome(before.Surviving(before.Lookup(p)), after.Observe(p));
    }
  }

  // A power loss during a replacement leaves the complete old or the complete new document,
  // provided the old one was durable when the replacement began.
  lemma CrashDuringReplacement<D(!new)>(base: Disk<D>, now: Disk<D>, after: Disk<D>, target: Path, document: D)
    requires base.Valid() && Replacing(base, now, target, document)
    requires Settled(base, target)
    requires base.Observe(target) != Some(Torn)
    requires CrashesTo(now, after)
    ensures after.Observe(target) == base.Observe(target) || after.Observe(target) == Some(Whole(document))
  {
    assert MayFind(now, target, after.Observe(target));
    var s :| s in now.Survivors(target) && CanBecome(s, after.Observe(target));
    assert s in base.Survivors(target) + {Kept(Whole(document))};
  }

  // Once only the visible document can survive, a power loss does not change what is read.
  lemma CrashAfterReplacement<D(!new)>(before: Disk<D>, after: Disk<D>, target: Path, document: D)
    requires before.Valid() && CrashesTo(before, after)
    requires before.Survivors(target) == {Kept(Whole(document))}
    ensures after.Observe(target) == Some(Whole(document))
    ensures after.Survivors(target) == {Kept(Whole(document))}
  {
    assert MayFind(before, target, after.Observe(target));
    var s :| s in before.Survivors(target) && CanBecome(s, after.Observe(target));
    assert after.journal[target] == {after.Lookup(target)};
    assert after.Survivors(target) == {after.Surviving(after.Lookup(target))};
  }
}
