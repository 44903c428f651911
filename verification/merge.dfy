/** Merging a staged tree into the live one, entry by entry, without following links. */
module Merge {
  import opened Paths
  import opened Selection
  import opened FileTree

  // ---------------------------------------------------------------------------------------
  // The overlay the merge must produce
  // ---------------------------------------------------------------------------------------

  /** `source` laid over `target`: directories merge and take the metadata of the source, anything
      else of the source replaces what was there. */
  function Overlay(target: Node, source: Node): Node
    decreases source
  {
    if target.Dir? && source.Dir? then
      Dir(source.meta,
          map name | name in target.entries.Keys + source.entries.Keys ::
            if name !in source.entries then target.entries[name]
            else if name !in target.entries then source.entries[name]
            else Overlay(target.entries[name], source.entries[name]))
    else source
  }

  /** No path that both trees have is a directory in one of them only. */
  predicate Compatible(target: Node, source: Node)
    decreases source
  {
    if target.Dir? && source.Dir? then
      forall name :: name in source.entries && name in target.entries ==>
        Compatible(target.entries[name], source.entries[name])
    else !target.Dir? && !source.Dir?
  }

  ghost predicate SameKindOfNode(target: Node, source: Node, path: Path) {
    Exists(target, path) && Exists(source, path) ==> (IsDir(target, path) <==> IsDir(source, path))
  }

  /** Compatibility as a statement about paths. */
  lemma {:induction false} CompatibleIsPathwise(target: Node, source: Node)
    ensures Compatible(target, source) <==> forall path: Path :: SameKindOfNode(target, source, path)
    decreases source
  {
    if target.Dir? && source.Dir? {
      forall name | name in source.entries && name in target.entries
        ensures Compatible(target.entries[name], source.entries[name]) <==>
                forall path: Path :: SameKindOfNode(target.entries[name], source.entries[name], path)
      {
        CompatibleIsPathwise(target.entries[name], source.entries[name]);
      }
      if Compatible(target, source) {
        forall path: Path ensures SameKindOfNode(target, source, path) {
          if path != [] && path[0] in source.entries && path[0] in target.entries {
            assert SameKindOfNode(target.entries[path[0]], source.entries[path[0]], path[1..]);
          }
        }
      }
      if forall path: Path :: SameKindOfNode(target, source, path) {
        forall name, path: Path | name in source.entries && name in target.entries
          ensures SameKindOfNode(target.entries[name], source.entries[name], path)
        {
          assert ([name] + path)[1..] == path;
          assert SameKindOfNode(target, source, [name] + path);
        }
      }
    } else {
      if !target.Dir? && !source.Dir? {
        forall path: Path ensures SameKindOfNode(target, source, path) {}
      } else {
        assert !SameKindOfNode(target, source, []);
      }
    }
  }

  /** The overlay shows the source wherever the source has something, and the target elsewhere. */
  lemma {:induction false} OverlayLabel(target: Node, source: Node, path: Path)
    requires Compatible(target, source)
    ensures LabelAt(Overlay(target, source), path) ==
            if Exists(source, path) then LabelAt(source, path) else LabelAt(target, path)
    decreases source
  {
    if target.Dir? && source.Dir? && path != [] {
      var name := path[0];
      if name in target.entries && name in source.entries {
        OverlayLabel(target.entries[name], source.entries[name], path[1..]);
      }
    }
  }

  // ---------------------------------------------------------------------------------------
  // A merge part of the way
  // ---------------------------------------------------------------------------------------

  /** One name of two directories, before (`0`) and after (`1`). */
  ghost predicate Untouched(target0: Node, source0: Node, target1: Node, source1: Node, name: string)
    requires target0.Dir? && source0.Dir? && target1.Dir? && source1.Dir?
  {
    && (name in source1.entries <==> name in source0.entries)
    && (name in source0.entries ==> source1.entries[name] == source0.entries[name])
    && (name in target1.entries <==> name in target0.entries)
    && (name in target0.entries ==> target1.entries[name] == target0.entries[name])
  }

  ghost predicate Moved(target0: Node, source0: Node, target1: Node, source1: Node, name: string)
    requires target0.Dir? && source0.Dir? && target1.Dir? && source1.Dir?
  {
    && name in source0.entries && name !in source1.entries && name in target1.entries
    && (name in target0.entries ==> Compatible(target0.entries[name], source0.entries[name]))
    && target1.entries[name] == if name in target0.entries then Overlay(target0.entries[name], source0.entries[name])
                                else source0.entries[name]
  }

  ghost predicate AllDirs(target0: Node, source0: Node, target1: Node, source1: Node) {
    target0.Dir? && source0.Dir? && target1.Dir? && source1.Dir?
  }

  /** Every entry is untouched, moved, or a pair of directories that is itself part of the way. */
  ghost predicate Partial(target0: Node, source0: Node, target1: Node, source1: Node)
    requires AllDirs(target0, source0, target1, source1)
    decreases source0
  {
    && source1.meta == source0.meta
    && (target1.meta == target0.meta || target1.meta == source0.meta)
    && forall name: string ::
         || Untouched(target0, source0, target1, source1, name)
         || Moved(target0, source0, target1, source1, name)
         || PartialAt(target0, source0, target1, source1, name)
  }

  ghost predicate PartialAt(target0: Node, source0: Node, target1: Node, source1: Node, name: string)
    requires AllDirs(target0, source0, target1, source1)
    decreases source0, 0
  {
    && name in target0.entries && name in source0.entries && name in target1.entries && name in source1.entries
    && AllDirs(target0.entries[name], source0.entries[name], target1.entries[name], source1.entries[name])
    && Partial(target0.entries[name], source0.entries[name], target1.entries[name], source1.entries[name])
  }

  ghost predicate Conserved(target0: Node, source0: Node, target1: Node, source1: Node, path: Path) {
    && (Exists(target0, path) ==> Exists(target1, path))
    && (Exists(target1, path) ==>
          LabelAt(target1, path) == LabelAt(target0, path) || LabelAt(target1, path) == LabelAt(source0, path))
    && (Exists(source0, path) ==>
          LabelAt(source1, path) == LabelAt(source0, path) || LabelAt(target1, path) == LabelAt(source0, path))
    && (Exists(source1, path) ==> LabelAt(source1, path) == LabelAt(source0, path))
  }

  /** However far a merge got, the destination shows its old or its staged value at every path and
      has lost no path, and every staged node is still in one of the two trees. */
  lemma {:induction false} PartialConserves(target0: Node, source0: Node, target1: Node, source1: Node, path: Path)
    requires AllDirs(target0, source0, target1, source1) && Partial(target0, source0, target1, source1)
    ensures Conserved(target0, source0, target1, source1, path)
    decreases source0
  {
    if path != [] {
      var name, below := path[0], path[1..];
      if Moved(target0, source0, target1, source1, name) {
        if name in target0.entries {
          OverlayLabel(target0.entries[name], source0.entries[name], below);
        }
      } else if !Untouched(target0, source0, target1, source1, name) {
        assert PartialAt(target0, source0, target1, source1, name);
        PartialConserves(target0.entries[name], source0.entries[name],
                         target1.entries[name], source1.entries[name], below);
      }
    }
  }

  lemma {:induction false} PartialStart(target: Node, source: Node)
    requires target.Dir? && source.Dir?
    ensures Partial(target, source, target, source)
  {
  }

  // ---------------------------------------------------------------------------------------
  // The merge
  // ---------------------------------------------------------------------------------------

  datatype Outcome = Done | Conflict | IoError

  datatype Errno = Renamed | NotEmpty | KindMismatch | Failure

  /** After the names outside `rest` have been merged. */
  ghost predicate MergedExcept(target0: Node, source0: Node, target: Node, source: Node, rest: set<string>)
    requires AllDirs(target0, source0, target, source)
  {
    && source.meta == source0.meta && target.meta == target0.meta
    && forall name: string ::
         if name in source0.entries && name !in rest then Moved(target0, source0, target, source, name)
         else Untouched(target0, source0, target, source, name)
  }

  lemma MergedExceptIsPartial(target0: Node, source0: Node, target: Node, source: Node, rest: set<string>)
    requires AllDirs(target0, source0, target, source) && MergedExcept(target0, source0, target, source, rest)
    ensures Partial(target0, source0, target, source)
  {
  }

  lemma AllMerged(target0: Node, source0: Node, target: Node, source: Node)
    requires AllDirs(target0, source0, target, source) && MergedExcept(target0, source0, target, source, {})
    ensures Compatible(target0, source0)
    ensures target == Dir(target0.meta, Overlay(target0, source0).entries)
    ensures source == Dir(source0.meta, map[])
  {
    forall name | name in source0.entries && name in target0.entries
      ensures Compatible(target0.entries[name], source0.entries[name])
    {
      assert Moved(target0, source0, target, source, name);
    }
    var expected := Overlay(target0, source0).entries;
    forall name ensures name in target.entries <==> name in expected {
      assert Moved(target0, source0, target, source, name) || Untouched(target0, source0, target, source, name);
    }
    forall name | name in expected ensures target.entries[name] == expected[name] {
      assert Moved(target0, source0, target, source, name) || Untouched(target0, source0, target, source, name);
    }
    forall name ensures name !in source.entries {
      assert Moved(target0, source0, target, source, name) || Untouched(target0, source0, target, source, name);
    }
    assert source.entries == map[];
  }

  lemma MoveOne(target0: Node, source0: Node, target: Node, source: Node, rest: set<string>, name: string, moved: Node)
    requires AllDirs(target0, source0, target, source) && MergedExcept(target0, source0, target, source, rest)
    requires name in rest && name in source0.entries
    requires name in target0.entries ==> Compatible(target0.entries[name], source0.entries[name])
    requires moved == if name in target0.entries then Overlay(target0.entries[name], source0.entries[name])
                      else source0.entries[name]
    ensures MergedExcept(target0, source0, With(target, name, moved), Without(source, name), rest - {name})
  {
    var target1, source1 := With(target, name, moved), Without(source, name);
    forall other: string
      ensures if other in source0.entries && other !in rest - {name}
              then Moved(target0, source0, target1, source1, other)
              else Untouched(target0, source0, target1, source1, other)
    {
      if other != name {
        assert if other in source0.entries && other !in rest
               then Moved(target0, source0, target, source, other)
               else Untouched(target0, source0, target, source, other);
      }
    }
  }

  lemma StillUntouched(target0: Node, source0: Node, target: Node, source: Node, rest: set<string>, name: string)
    requires AllDirs(target0, source0, target, source) && MergedExcept(target0, source0, target, source, rest)
    requires name in rest
    ensures Untouched(target0, source0, target, source, name)
  {
  }

  /** A directory pair left part of the way leaves its parents part of the way. */
  lemma ChildPartial(target0: Node, source0: Node, target: Node, source: Node, rest: set<string>, name: string,
                     childTarget: Node, childSource: Node)
    requires AllDirs(target0, source0, target, source) && MergedExcept(target0, source0, target, source, rest)
    requires name in rest && name in target0.entries && name in source0.entries
    requires AllDirs(target0.entries[name], source0.entries[name], childTarget, childSource)
    requires Partial(target0.entries[name], source0.entries[name], childTarget, childSource)
    ensures Partial(target0, source0, With(target, name, childTarget), With(source, name, childSource))
  {
    var target1, source1 := With(target, name, childTarget), With(source, name, childSource);
    assert PartialAt(target0, source0, target1, source1, name);
    forall other: string
      ensures Untouched(target0, source0, target1, source1, other) || Moved(target0, source0, target1, source1, other)
              || PartialAt(target0, source0, target1, source1, other)
    {
      if other != name {
        assert if other in source0.entries && other !in rest
               then Moved(target0, source0, target, source, other)
               else Untouched(target0, source0, target, source, other);
      }
    }
  }

  /** Taking the metadata of the source keeps a directory part of the way. */
  lemma PartialMetadata(target0: Node, source0: Node, target1: Node, source1: Node)
    requires AllDirs(target0, source0, target1, source1) && Partial(target0, source0, target1, source1)
    ensures Partial(target0, source0, Dir(source0.meta, target1.entries), source1)
  {
    var target2 := Dir(source0.meta, target1.entries);
    forall name: string
      ensures Untouched(target0, source0, target2, source1, name) || Moved(target0, source0, target2, source1, name)
              || PartialAt(target0, source0, target2, source1, name)
    {
      assert PartialAt(target0, source0, target1, source1, name) ==>
             PartialAt(target0, source0, target2, source1, name);
    }
  }

  class Volumes {
    var staged: Node
    var live: Node

    /** Which of the system calls fail for reasons outside the two trees. */
    const ioFails: nat -> bool
    var calls: nat

    constructor (staged: Node, live: Node, ioFails: nat -> bool)
      ensures this.staged == staged && this.live == live && this.ioFails == ioFails
    {
      this.staged, this.live, this.ioFails, this.calls := staged, live, ioFails, 0;
    }

    ghost predicate Faulty() {
      exists n :: ioFails(n)
    }

    method SystemCallFails() returns (failed: bool)
      modifies this`calls
      ensures failed ==> Faulty()
    {
      failed := ioFails(calls);
      calls := calls + 1;
    }

    method CreateDirectory(path: Path) returns (ok: bool)
      requires live.Dir?
      modifies this`live, this`calls
      ensures live.Dir? && (ok ==> MakeDirs(old(live), path) == Some(live))
      ensures !ok ==> PartlyMade(old(live), path, live) && (Faulty() || MakeDirs(old(live), path) == None)
    {
      ok, live, calls := CreateDirectories(live, path, ioFails, calls);
    }

    /** `renameat` under the POSIX.1-2017 rules: a directory may replace an absent entry or an empty
        directory, anything else an absent entry or a non-directory. */
    method RenameEntry(path: Path, name: string) returns (errno: Errno)
      requires IsDir(staged, path) && IsDir(live, path) && name in At(staged, path).value.entries
      modifies this
      ensures errno != Renamed ==> staged == old(staged) && live == old(live)
      ensures errno == Renamed ==>
                var source, target := old(At(staged, path).value), old(At(live, path).value);
                && staged == Replace(old(staged), path, Without(source, name))
                && live == Replace(old(live), path, With(target, name, source.entries[name]))
      ensures var source, target := old(At(staged, path).value.entries[name]), old(At(live, path).value);
              match errno
              case Failure => Faulty()
              case Renamed => name in target.entries ==>
                                if source.Dir? then target.entries[name].Dir? && target.entries[name].entries == map[]
                                else !target.entries[name].Dir?
              case NotEmpty => name in target.entries && source.Dir? && target.entries[name].Dir?
              case KindMismatch => name in target.entries && (source.Dir? <==> !target.entries[name].Dir?)
    {
      var failed := SystemCallFails();
      if failed { return Failure; }
      var sourceDir, targetDir := At(staged, path).value, At(live, path).value;
      var source := sourceDir.entries[name];
      if name in targetDir.entries {
        var target := targetDir.entries[name];
        if source.Dir? != target.Dir? { return KindMismatch; }
        if source.Dir? && target.entries != map[] { return NotEmpty; }
      }
      staged := Replace(staged, path, Without(sourceDir, name));
      live := Replace(live, path, With(targetDir, name, source));
      return Renamed;
    }

    ghost predicate Merging(path: Path, staged0: Node, live0: Node, target: Node, source: Node)
      reads this
    {
      && Exists(staged0, path) && Exists(live0, path)
      && target.Dir? && source.Dir?
      && staged == Replace(staged0, path, source)
      && live == Replace(live0, path, target)
    }

    lemma MergingAt(path: Path, staged0: Node, live0: Node, target: Node, source: Node)
      requires Merging(path, staged0, live0, target, source)
      ensures At(staged, path) == Some(source) && At(live, path) == Some(target)
      ensures forall other :: Replace(staged, path, other) == Replace(staged0, path, other)
      ensures forall other :: Replace(live, path, other) == Replace(live0, path, other)
    {
      ReplaceAt(staged0, path, source);
      ReplaceAt(live0, path, target);
      forall other
        ensures Replace(staged, path, other) == Replace(staged0, path, other)
        ensures Replace(live, path, other) == Replace(live0, path, other)
      {
        ReplaceTwice(staged0, path, source, other);
        ReplaceTwice(live0, path, target, other);
      }
    }

    /** Opens the existing child directory, merges into it, copies the metadata and removes the
        emptied source. The parents are as `MergeIntoDirectory` left them before this entry. */
    method MergeChild(path: Path, name: string) returns (outcome: Outcome)
      requires IsDir(staged, path) && IsDir(live, path)
      requires name in At(staged, path).value.entries && At(staged, path).value.entries[name].Dir?
      requires name in At(live, path).value.entries && At(live, path).value.entries[name].Dir?
      modifies this
      ensures var source, target := old(At(staged, path).value), old(At(live, path).value);
              var source0, target0 := source.entries[name], target.entries[name];
              && (outcome == Done ==>
                    && Compatible(target0, source0)
                    && Merging(path, old(staged), old(live),
                               With(target, name, Overlay(target0, source0)), Without(source, name)))
              && (outcome == Conflict ==> !Compatible(target0, source0))
              && (outcome == IoError ==> Faulty())
              && (outcome != Done ==>
                    exists childTarget, childSource ::
                      && AllDirs(target0, source0, childTarget, childSource)
                      && Partial(target0, source0, childTarget, childSource)
                      && Merging(path, old(staged), old(live),
                                 With(target, name, childTarget), With(source, name, childSource)))
      decreases At(staged, path).value.entries[name], 1
    {
      hide Partial, Compatible, Replace;
      ghost var source, target := At(staged, path).value, At(live, path).value;
      ghost var source0, target0 := source.entries[name], target.entries[name];
      var metadata := At(staged, path).value.entries[name].meta;
      var child := path + [name];
      ReplaceChild(staged, path, name, source0);
      ReplaceChild(live, path, name, target0);
      PartialStart(target0, source0);
      var failed := SystemCallFails();
      if failed {
        ReplaceSame(staged, path);
        ReplaceSame(live, path);
        assert With(source, name, source0) == source && With(target, name, target0) == target;
        assert Merging(path, old(staged), old(live), With(target, name, target0), With(source, name, source0));
        return IoError;
      }
      outcome := MergeIntoDirectory(child);
      ghost var source1, target1 := At(staged, child).value, At(live, child).value;
      ReplaceChild(old(staged), path, name, source1);
      ReplaceChild(old(live), path, name, target1);
      assert Merging(path, old(staged), old(live), With(target, name, target1), With(source, name, source1));
      if outcome != Done { return; }
      failed := SystemCallFails();
      if failed { return IoError; }
      SetMetadata(path, name, metadata, old(staged), old(live), target, source, target1, source1);
      PartialMetadata(target0, source0, target1, source1);
      assert Dir(source0.meta, target1.entries) == Overlay(target0, source0);
      failed := SystemCallFails();
      if failed { return IoError; }
      MergingAt(path, old(staged), old(live),
                With(target, name, Overlay(target0, source0)), With(source, name, source1));
      staged := Replace(staged, path, Without(At(staged, path).value, name));
      assert Without(With(source, name, source1), name) == Without(source, name);
    }

    /** fchown, fchmod and futimens on the merged child. */
    method SetMetadata(path: Path, name: string, metadata: int, ghost staged0: Node, ghost live0: Node,
                       ghost target: Node, ghost source: Node, ghost target1: Node, ghost source1: Node)
      requires target.Dir? && source.Dir? && target1.Dir?
      requires Merging(path, staged0, live0, With(target, name, target1), With(source, name, source1))
      modifies this`live
      ensures Merging(path, staged0, live0,
                      With(target, name, Dir(metadata, target1.entries)), With(source, name, source1))
    {
      MergingAt(path, staged0, live0, With(target, name, target1), With(source, name, source1));
      var parent := At(live, path).value;
      assert parent.entries[name] == target1;
      live := Replace(live, path, With(parent, name, Dir(metadata, parent.entries[name].entries)));
      ghost var merged := Dir(metadata, target1.entries);
      assert With(With(target, name, target1), name, merged) == With(target, name, merged) by {
        assert target.entries[name := target1][name := merged] == target.entries[name := merged];
      }
    }

    /** The destination stands for an open directory, so no component above it is looked up again. */
    method MergeIntoDirectory(path: Path) returns (outcome: Outcome)
      requires IsDir(staged, path) && IsDir(live, path)
      modifies this
      ensures IsDir(staged, path) && IsDir(live, path)
      ensures var source0, target0 := old(At(staged, path).value), old(At(live, path).value);
              var source1, target1 := At(staged, path).value, At(live, path).value;
              && Merging(path, old(staged), old(live), target1, source1)
              && target1.meta == target0.meta
              && Partial(target0, source0, target1, source1)
              && (outcome == Conflict ==> !Compatible(target0, source0))
              && (outcome == IoError ==> Faulty())
              && (outcome == Done ==>
                    && Compatible(target0, source0)
                    && target1.entries == Overlay(target0, source0).entries
                    && source1.entries == map[])
      decreases At(staged, path).value, 0
    {
      ghost var source0, target0 := At(staged, path).value, At(live, path).value;
      ghost var source, target := source0, target0;
      ReplaceSame(staged, path);
      ReplaceSame(live, path);
      var rest := At(staged, path).value.entries.Keys;
      while rest != {}
        invariant Merging(path, old(staged), old(live), target, source)
        invariant rest <= source0.entries.Keys
        invariant MergedExcept(target0, source0, target, source, rest)
        decreases rest
      {
        var name :| name in rest;
        MergingAt(path, old(staged), old(live), target, source);
        StillUntouched(target0, source0, target, source, rest, name);
        MergedExceptIsPartial(target0, source0, target, source, rest);
        var errno := RenameEntry(path, name);
        match errno {
          case Failure => return IoError;
          case KindMismatch => return Conflict;
          case Renamed =>
            MoveOne(target0, source0, target, source, rest, name, source0.entries[name]);
            source, target := Without(source, name), With(target, name, source0.entries[name]);
          case NotEmpty =>
            outcome := MergeChild(path, name);
            if outcome != Done {
              ghost var childTarget, childSource :|
                && AllDirs(target0.entries[name], source0.entries[name], childTarget, childSource)
                && Partial(target0.entries[name], source0.entries[name], childTarget, childSource)
                && Merging(path, old(staged), old(live),
                           With(target, name, childTarget), With(source, name, childSource));
              ChildPartial(target0, source0, target, source, rest, name, childTarget, childSource);
              MergingAt(path, old(staged), old(live), With(target, name, childTarget), With(source, name, childSource));
              return;
            }
            ghost var merged := Overlay(target0.entries[name], source0.entries[name]);
            MoveOne(target0, source0, target, source, rest, name, merged);
            source, target := Without(source, name), With(target, name, merged);
        }
        rest := rest - {name};
      }
      MergingAt(path, old(staged), old(live), target, source);
      MergedExceptIsPartial(target0, source0, target, source, {});
      AllMerged(target0, source0, target, source);
      return Done;
    }
  }
}
