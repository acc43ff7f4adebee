/** Lines appended to the firmware's own makefiles for one build, and taken back afterwards. */
module MakefilePatches {
  import opened Text

  /** A line for a file; the file is named by where it really is. */
  datatype Patch = Patch(file: string, line: string)

  /** A patch, and how much of it gets written before the disk says no. */
  datatype Attempt = Attempt(patch: Patch, written: nat)

  /** What to put back; `None` for a line that was there already. */
  datatype Backup = Backup(target: string, saved: Maybe<string>)

  type Files = map<string, string>

  datatype Tree = Tree(files: Files, backups: seq<Backup>)

  predicate FoundAt(text: string, line: string, i: nat) {
    i + |line| <= |text| && text[i..i + |line|] == line
  }

  predicate Contains(text: string, line: string) {
    exists i :: 0 <= i <= |text| && FoundAt(text, line, i)
  }

  /** What is appended: a line of its own. */
  function Appended(original: string, line: string): (text: string)
    ensures text != []
  {
    (if original != [] && original[|original| - 1] == '\n' then "" else "\n") + line + "\n"
  }

  function Patched(original: string, a: Attempt): string {
    var text := Appended(original, a.patch.line);
    original + if a.written < |text| then text[..a.written] else text
  }

  function Step(t: Tree, a: Attempt): Tree {
    if a.patch.file !in t.files then t
    else
      var original := t.files[a.patch.file];
      if Contains(original, a.patch.line) then t.(backups := t.backups + [Backup(a.patch.file, None)])
      else Tree(t.files[a.patch.file := Patched(original, a)], t.backups + [Backup(a.patch.file, Some(original))])
  }

  // ---- what one patch does ----

  /** The characters of `line` stand in `text`, one after the other, from `i` on. */
  ghost predicate StandsAt(text: string, line: string, i: int) {
    0 <= i <= |text| - |line| && forall k :: 0 <= k < |line| ==> text[i + k] == line[k]
  }

  lemma ContainsIff(text: string, line: string)
    ensures Contains(text, line) <==> exists i :: StandsAt(text, line, i)
  {
    if Contains(text, line) {
      var i :| 0 <= i <= |text| && FoundAt(text, line, i);
      forall k | 0 <= k < |line| ensures text[i + k] == line[k] {
        assert text[i..i + |line|][k] == text[i + k];
      }
      assert StandsAt(text, line, i);
    }
    if i :| StandsAt(text, line, i) {
      assert text[i..i + |line|] == line;
      assert FoundAt(text, line, i);
    }
  }

  /** A patch that is written out: a file that has its line already stays as it is, and any other gets the line at its
      end, as a line of its own, and is noted as it was before. No other file is touched. */
  lemma PatchAddsItsLine(t: Tree, a: Attempt)
    requires a.written >= |a.patch.line| + 2
    ensures var t', file := Step(t, a), a.patch.file;
      && t'.files.Keys == t.files.Keys && (forall f :: f in t.files && f != file ==> t'.files[f] == t.files[f])
      && (file !in t.files ==> t' == t)
      && (file in t.files ==>
            var was := t.files[file];
            if exists i :: StandsAt(was, a.patch.line, i) then
              t'.files[file] == was && t'.backups == t.backups + [Backup(file, None)]
            else
              && t'.backups == t.backups + [Backup(file, Some(was))]
              && t'.files[file] == (if was != [] && was[|was| - 1] == '\n' then was + a.patch.line + "\n"
                                    else was + "\n" + a.patch.line + "\n"))
  {
    if a.patch.file in t.files {
      var was, line := t.files[a.patch.file], a.patch.line;
      ContainsIff(was, line);
      var text := Appended(was, line);
      assert text[..|text|] == text;
      assert was + ("" + line + "\n") == was + line + "\n";
      assert was + ("\n" + line + "\n") == was + "\n" + line + "\n";
    }
  }

  function Applied(files: Files, attempts: seq<Attempt>): Tree {
    if attempts == [] then Tree(files, [])
    else Step(Applied(files, attempts[..|attempts| - 1]), attempts[|attempts| - 1])
  }

  /** The restoring loop: first saved, first put back. */
  function Restored(files: Files, backups: seq<Backup>): Files {
    if backups == [] then files
    else
      var last := backups[|backups| - 1];
      var before := Restored(files, backups[..|backups| - 1]);
      if last.saved.Some? then before[last.target := last.saved.value] else before
  }

  function Reversed<T>(s: seq<T>): seq<T> {
    if s == [] then [] else [s[|s| - 1]] + Reversed(s[..|s| - 1])
  }

  // ---- the loops ----

  /** The attempts of a run that stops at patch `stop` after `written` characters of it. */
  function Attempts(patches: seq<Patch>, stop: nat, written: nat): seq<Attempt> {
    if patches == [] then []
    else
      var n := |patches| - 1;
      if n > stop then Attempts(patches[..n], stop, written)
      else Attempts(patches[..n], stop, written)
           + [Attempt(patches[n], if n == stop then written else |patches[n].line| + 2)]
  }

  class SourceTree {
    var files: Files

    constructor (files: Files)
      ensures this.files == files
    {
      this.files := files;
    }

    /** All patches in order; when a write fails, what is left of it stays in the file and the
        rest of the patches are not tried. */
    method Apply(patches: seq<Patch>, stop: nat, written: nat) returns (backups: seq<Backup>)
      modifies this
      ensures Tree(files, backups) == Applied(old(files), Attempts(patches, stop, written))
    {
      hide Applied, Attempts, Contains;
      backups := [];
      var i := 0;
      NoAttempt(files, patches, stop, written);
      while i < |patches| && i <= stop
        invariant 0 <= i <= |patches| && i <= stop + 1
        invariant Tree(files, backups) == Applied(old(files), Attempts(patches[..i], stop, written))
      {
        NextAttempt(old(files), patches, i, stop, written);
        var target := patches[i].file;
        if target in files {
          var original := files[target];
          if Contains(original, patches[i].line) {
            backups := backups + [Backup(target, None)];
          } else {
            backups := backups + [Backup(target, Some(original))];
            var text := Appended(original, patches[i].line);
            files := files[target := original + if i == stop && written < |text| then text[..written] else text];
          }
        }
        i := i + 1;
      }
      AttemptsStop(patches, i, stop, written);
    }

    /** The whole of it: `built` is what the build makes of the patched tree. */
    method Around(patches: seq<Patch>, stop: nat, written: nat, built: Files)
      requires BuildLeaves(Applied(files, Attempts(patches, stop, written)), built)
      modifies this
      ensures files == old(files) <==> !TouchedTwice(old(files), Attempts(patches, stop, written))
    {
      AttemptsWrite(patches, stop, written);
      ForwardOrderRestores(files, Attempts(patches, stop, written), built);
      hide BuildLeaves, Applied, Restored, TouchedTwice, Writes;
      var backups := Apply(patches, stop, written);
      files := built;
      Restore(backups);
    }

    method Restore(backups: seq<Backup>)
      modifies this
      ensures files == Restored(old(files), backups)
    {
      for i := 0 to |backups|
        invariant files == Restored(old(files), backups[..i])
      {
        assert backups[..i + 1][..i] == backups[..i];
        if backups[i].saved.Some? {
          files := files[backups[i].target := backups[i].saved.value];
        }
      }
      assert backups[..|backups|] == backups;
    }
  }

  lemma {:induction false} NoAttempt(files: Files, patches: seq<Patch>, stop: nat, written: nat)
    ensures Applied(files, Attempts(patches[..0], stop, written)) == Tree(files, [])
  {
  }

  lemma {:induction false} NextAttempt(files: Files, patches: seq<Patch>, i: nat, stop: nat, written: nat)
    requires i < |patches| && i <= stop
    ensures Applied(files, Attempts(patches[..i + 1], stop, written))
            == Step(Applied(files, Attempts(patches[..i], stop, written)),
                    Attempt(patches[i], if i == stop then written else |patches[i].line| + 2))
  {
    hide Step;
    var done := Attempts(patches[..i], stop, written);
    var next := Attempt(patches[i], if i == stop then written else |patches[i].line| + 2);
    assert patches[..i + 1][..i] == patches[..i];
    assert Attempts(patches[..i + 1], stop, written) == done + [next];
    assert (done + [next])[..|done|] == done;
  }

  lemma {:induction false} AttemptsStop(patches: seq<Patch>, i: nat, stop: nat, written: nat)
    requires i <= |patches| && (i == |patches| || i == stop + 1)
    ensures Attempts(patches, stop, written) == Attempts(patches[..i], stop, written)
  {
    if i < |patches| {
      var n := |patches| - 1;
      AttemptsStop(patches[..n], i, stop, written);
      assert patches[..n][..i] == patches[..i];
    } else {
      assert patches[..i] == patches;
    }
  }

  // ---- what is put back ----

  function LastSaved(backups: seq<Backup>, target: string): Maybe<string> {
    if backups == [] then None
    else
      var last := backups[|backups| - 1];
      if last.target == target && last.saved.Some? then last.saved
      else LastSaved(backups[..|backups| - 1], target)
  }

  function FirstSaved(backups: seq<Backup>, target: string): Maybe<string> {
    if backups == [] then None
    else
      var last := backups[|backups| - 1];
      var before := FirstSaved(backups[..|backups| - 1], target);
      if before.Some? then before
      else if last.target == target then last.saved
      else None
  }

  lemma {:induction false} RestoredAt(files: Files, backups: seq<Backup>, target: string)
    ensures var last := LastSaved(backups, target);
      if last.Some? then target in Restored(files, backups) && Restored(files, backups)[target] == last.value
      else (target in Restored(files, backups) <==> target in files)
           && (target in files ==> Restored(files, backups)[target] == files[target])
  {
    if backups != [] {
      RestoredAt(files, backups[..|backups| - 1], target);
    }
  }

  lemma {:induction false} LastOfReversed(backups: seq<Backup>, target: string)
    ensures LastSaved(Reversed(backups), target) == FirstSaved(backups, target)
  {
    if backups != [] {
      var last := backups[|backups| - 1];
      LastOfReversed(backups[..|backups| - 1], target);
      LastSavedCons(last, Reversed(backups[..|backups| - 1]), target);
    }
  }

  lemma {:induction false} LastSavedCons(b: Backup, backups: seq<Backup>, target: string)
    ensures LastSaved([b] + backups, target)
      == if LastSaved(backups, target).Some? then LastSaved(backups, target)
         else if b.target == target then b.saved
         else None
  {
    if backups == [] {
      assert [b] + backups == [b];
      assert [b][..0] == [];
    } else {
      assert ([b] + backups)[..|backups|] == [b] + backups[..|backups| - 1];
      LastSavedCons(b, backups[..|backups| - 1], target);
    }
  }

  /** The first thing saved of a file is the file as it was; and a file of which nothing was saved
      is untouched. */
  lemma {:induction false} FirstSavedIsOriginal(files: Files, attempts: seq<Attempt>, target: string)
    ensures var t := Applied(files, attempts);
      && (target in t.files <==> target in files)
      && (FirstSaved(t.backups, target).Some? ==>
            target in files && FirstSaved(t.backups, target).value == files[target])
      && (FirstSaved(t.backups, target).None? && target in files ==> t.files[target] == files[target])
  {
    if attempts != [] {
      var init := attempts[..|attempts| - 1];
      FirstSavedIsOriginal(files, init, target);
      var before := Applied(files, init);
      var after := Applied(files, attempts);
      if after.backups != before.backups {
        assert after.backups[..|after.backups| - 1] == before.backups;
      }
      hide Contains, Patched;
    }
  }

  /** The build may do to the files that were saved whatever it likes, and nothing to others. */
  ghost predicate BuildLeaves(t: Tree, built: Files) {
    forall target :: FirstSaved(t.backups, target).None? ==>
      && (target in built <==> target in t.files)
      && (target in built ==> built[target] == t.files[target])
  }

  /** Put back last saved first, every file is as it was: whichever patches were applied, fully
      or in part, and whatever the build did to those files. */
  lemma {:induction false} ReverseOrderRestores(files: Files, attempts: seq<Attempt>, built: Files)
    requires BuildLeaves(Applied(files, attempts), built)
    ensures Restored(built, Reversed(Applied(files, attempts).backups)) == files
  {
    var t := Applied(files, attempts);
    var end := Restored(built, Reversed(t.backups));
    forall target | true
      ensures (target in end <==> target in files) && (target in files ==> end[target] == files[target])
    {
      FirstSavedIsOriginal(files, attempts, target);
      LastOfReversed(t.backups, target);
      RestoredAt(built, Reversed(t.backups), target);
    }
  }

  /** No file was saved twice. */
  ghost predicate SavedOnce(backups: seq<Backup>) {
    forall i, k :: 0 <= i < k < |backups| && backups[i].saved.Some? && backups[k].saved.Some? ==>
      backups[i].target != backups[k].target
  }

  lemma {:induction false} SavedAt(backups: seq<Backup>, target: string)
    ensures FirstSaved(backups, target).Some? <==>
      exists i :: 0 <= i < |backups| && backups[i].target == target && backups[i].saved.Some?
    ensures LastSaved(backups, target).Some? <==> FirstSaved(backups, target).Some?
    ensures SavedOnce(backups) ==> LastSaved(backups, target) == FirstSaved(backups, target)
  {
    if backups != [] {
      SavedAt(backups[..|backups| - 1], target);
    }
  }

  /** Every write but the last got at least one character out. */
  predicate Writes(attempts: seq<Attempt>) {
    forall i :: 0 <= i < |attempts| - 1 ==> attempts[i].written > 0
  }

  ghost predicate SavedTwice(backups: seq<Backup>, target: string) {
    exists i, k :: 0 <= i < k < |backups| && backups[i].target == backups[k].target == target
      && backups[i].saved.Some? && backups[k].saved.Some?
  }

  lemma {:induction false} SavedTwiceSnoc(backups: seq<Backup>, b: Backup, target: string)
    ensures SavedTwice(backups + [b], target) ==>
      SavedTwice(backups, target) || (b.target == target && b.saved.Some? && FirstSaved(backups, target).Some?)
  {
    SavedAt(backups, target);
  }

  lemma {:induction false} LastSavedSnoc(backups: seq<Backup>, b: Backup, target: string)
    ensures LastSaved(backups + [b], target)
      == if b.target == target && b.saved.Some? then b.saved else LastSaved(backups, target)
    ensures FirstSaved(backups + [b], target).Some?
      <==> FirstSaved(backups, target).Some? || (b.target == target && b.saved.Some?)
  {
    assert (backups + [b])[..|backups|] == backups;
  }

  /** What is saved of a file a second time is longer than the file was. */
  lemma {:induction false} SavedLater(files: Files, attempts: seq<Attempt>, target: string)
    requires Writes(attempts) && target in files
    ensures var t := Applied(files, attempts);
      && target in t.files && |t.files[target]| >= |files[target]|
      && (LastSaved(t.backups, target).Some? ==> |LastSaved(t.backups, target).value| >= |files[target]|)
      && (SavedTwice(t.backups, target) ==>
            LastSaved(t.backups, target).Some? && |LastSaved(t.backups, target).value| > |files[target]|)
      && (FirstSaved(t.backups, target).Some? && (forall a :: a in attempts ==> a.written > 0) ==>
            |t.files[target]| > |files[target]|)
  {
    if attempts != [] {
      var init, last := attempts[..|attempts| - 1], attempts[|attempts| - 1];
      SavedLater(files, init, target);
      assert forall a :: a in init ==> a.written > 0;
      assert last in attempts && forall a :: a in init ==> a in attempts;
      var t := Applied(files, init);
      assert Applied(files, attempts) == Step(t, last);
      if last.patch.file in t.files {
        StepGrows(t, last, target);
        SavedAt(t.backups, target);
        hide Contains, Patched, SavedTwice, LastSaved, FirstSaved, Step, Applied;
        var b := Step(t, last).backups[|t.backups|];
        SavedTwiceSnoc(t.backups, b, target);
        LastSavedSnoc(t.backups, b, target);
      } else {
        assert Step(t, last) == t;
        hide Contains, Patched, SavedTwice, LastSaved, FirstSaved, Step, Applied;
      }
    }
  }

  lemma StepGrows(t: Tree, a: Attempt, target: string)
    requires a.patch.file in t.files && target in t.files
    ensures var t' := Step(t, a);
      && target in t'.files && |t'.files[target]| >= |t.files[target]|
      && |t'.backups| == |t.backups| + 1
      && var b := t'.backups[|t.backups|];
      && t'.backups == t.backups + [b]
      && (b.saved.Some? ==> b.target in t.files && b.saved.value == t.files[b.target])
      && (b.saved.Some? && b.target == target && a.written > 0 ==> |t'.files[target]| > |t.files[target]|)
      && (!(b.saved.Some? && b.target == target) ==> t'.files[target] == t.files[target])
  {
    hide Contains, Appended;
  }

  lemma {:induction false} SavedExisted(files: Files, attempts: seq<Attempt>, target: string)
    ensures FirstSaved(Applied(files, attempts).backups, target).Some? ==> target in files
  {
    FirstSavedIsOriginal(files, attempts, target);
  }

  lemma {:induction false} RestoresIfSavedOnce(files: Files, attempts: seq<Attempt>, built: Files)
    requires Writes(attempts) && BuildLeaves(Applied(files, attempts), built)
    ensures Restored(built, Applied(files, attempts).backups) == files <==> SavedOnce(Applied(files, attempts).backups)
  {
    var t := Applied(files, attempts);
    var end := Restored(built, t.backups);
    if SavedOnce(t.backups) {
      forall target | true
        ensures (target in end <==> target in files) && (target in files ==> end[target] == files[target])
      {
        FirstSavedIsOriginal(files, attempts, target);
        SavedAt(t.backups, target);
        RestoredAt(built, t.backups, target);
      }
    } else {
      var i, k :| 0 <= i < k < |t.backups| && t.backups[i].saved.Some? && t.backups[k].saved.Some?
        && t.backups[i].target == t.backups[k].target;
      var target := t.backups[i].target;
      assert SavedTwice(t.backups, target);
      SavedAt(t.backups, target);
      SavedExisted(files, attempts, target);
      SavedLater(files, attempts, target);
      RestoredAt(built, t.backups, target);
    }
  }

  // ---- in terms of the patches ----

  /** At the turn of patch `i` its file is there and does not have its line. */
  predicate Appends(files: Files, attempts: seq<Attempt>, i: nat)
    requires i < |attempts|
  {
    var patch, now := attempts[i].patch, Applied(files, attempts[..i]).files;
    patch.file in now && !Contains(now[patch.file], patch.line)
  }

  ghost predicate Touched(files: Files, attempts: seq<Attempt>, target: string) {
    exists i :: 0 <= i < |attempts| && attempts[i].patch.file == target && Appends(files, attempts, i)
  }

  /** Two patches append to the same file. */
  ghost predicate TouchedTwice(files: Files, attempts: seq<Attempt>) {
    exists i, k :: 0 <= i < k < |attempts| && attempts[i].patch.file == attempts[k].patch.file
      && Appends(files, attempts, i) && Appends(files, attempts, k)
  }

  lemma AppendsEarlier(files: Files, attempts: seq<Attempt>, i: nat)
    requires i < |attempts| - 1
    ensures Appends(files, attempts[..|attempts| - 1], i) <==> Appends(files, attempts, i)
  {
    assert attempts[..|attempts| - 1][..i] == attempts[..i];
  }

  /** A file was saved exactly if a patch appended to it. */
  lemma {:induction false} SavedIff(files: Files, attempts: seq<Attempt>, target: string)
    ensures FirstSaved(Applied(files, attempts).backups, target).Some?
            <==> Touched(files, attempts, target)
    decreases |attempts|
  {
    if attempts != [] {
      var n := |attempts| - 1;
      SavedIff(files, attempts[..n], target);
      forall i | 0 <= i < n ensures Appends(files, attempts[..n], i) <==> Appends(files, attempts, i) {
        AppendsEarlier(files, attempts, i);
      }
      SavedStep(files, attempts, target);
      hide FirstSaved, Appends, Applied;
      TouchedSnoc(files, attempts, target);
    }
  }

  lemma TouchedSnoc(files: Files, attempts: seq<Attempt>, target: string)
    requires attempts != []
    requires forall i :: 0 <= i < |attempts| - 1 ==>
      (Appends(files, attempts[..|attempts| - 1], i) <==> Appends(files, attempts, i))
    ensures var n := |attempts| - 1;
            Touched(files, attempts, target)
            <==> Touched(files, attempts[..n], target)
                 || (attempts[n].patch.file == target && Appends(files, attempts, n))
  {
    var n := |attempts| - 1;
    assert forall i :: 0 <= i < n ==> attempts[..n][i] == attempts[i];
    hide Appends;
    if Touched(files, attempts[..n], target) {
      var i :| 0 <= i < n && attempts[..n][i].patch.file == target && Appends(files, attempts[..n], i);
      assert attempts[i].patch.file == target && Appends(files, attempts, i);
    }
    if Touched(files, attempts, target) {
      var i :| 0 <= i < |attempts| && attempts[i].patch.file == target && Appends(files, attempts, i);
      if i < n {
        assert attempts[..n][i].patch.file == target && Appends(files, attempts[..n], i);
      }
    }
  }

  /** What the last patch saves, and whether its file was saved before. */
  lemma SavedStep(files: Files, attempts: seq<Attempt>, target: string)
    requires attempts != []
    ensures var n := |attempts| - 1;
            var before, after := Applied(files, attempts[..n]).backups, Applied(files, attempts).backups;
            && (FirstSaved(after, target).Some? <==>
                  FirstSaved(before, target).Some? || (attempts[n].patch.file == target && Appends(files, attempts, n)))
            && (SavedOnce(after) <==>
                  SavedOnce(before)
                    && !(Appends(files, attempts, n) && FirstSaved(before, attempts[n].patch.file).Some?))
  {
    var n := |attempts| - 1;
    var t, a := Applied(files, attempts[..n]), attempts[n];
    hide Contains, Patched, SavedOnce, FirstSaved, LastSaved;
    if a.patch.file in t.files {
      var b := if Contains(t.files[a.patch.file], a.patch.line) then Backup(a.patch.file, None)
               else Backup(a.patch.file, Some(t.files[a.patch.file]));
      assert Applied(files, attempts).backups == t.backups + [b];
      hide Applied;
      LastSavedSnoc(t.backups, b, target);
      SavedOnceSnoc(t.backups, b);
    }
  }

  lemma {:induction false} SavedOnceSnoc(backups: seq<Backup>, b: Backup)
    ensures SavedOnce(backups + [b]) <==> SavedOnce(backups) && !(b.saved.Some? && FirstSaved(backups, b.target).Some?)
  {
    SavedAt(backups, b.target);
    hide FirstSaved, LastSaved;
    var all := backups + [b];
    assert forall i :: 0 <= i < |backups| ==> all[i] == backups[i];
    assert all[|backups|] == b;
  }

  /** No file was saved twice exactly if no two patches append to the same file. */
  lemma {:induction false} SavedOnceIff(files: Files, attempts: seq<Attempt>)
    ensures SavedOnce(Applied(files, attempts).backups) <==> !TouchedTwice(files, attempts)
    decreases |attempts|
  {
    if attempts != [] {
      var n := |attempts| - 1;
      SavedOnceIff(files, attempts[..n]);
      SavedStep(files, attempts, "");
      SavedIff(files, attempts[..n], attempts[n].patch.file);
      forall i | 0 <= i < n ensures Appends(files, attempts[..n], i) <==> Appends(files, attempts, i) {
        AppendsEarlier(files, attempts, i);
      }
      hide SavedOnce, FirstSaved, Applied, Appends, Touched, TouchedTwice;
      TwiceSnoc(files, attempts);
    }
  }

  lemma TwiceSnoc(files: Files, attempts: seq<Attempt>)
    requires attempts != []
    requires forall i :: 0 <= i < |attempts| - 1 ==>
      (Appends(files, attempts[..|attempts| - 1], i) <==> Appends(files, attempts, i))
    ensures var n := |attempts| - 1;
            TouchedTwice(files, attempts) <==>
              || TouchedTwice(files, attempts[..n])
              || (Appends(files, attempts, n) && Touched(files, attempts[..n], attempts[n].patch.file))
  {
    var n := |attempts| - 1;
    assert forall i :: 0 <= i < n ==> attempts[..n][i] == attempts[i];
    hide Appends;
    if TouchedTwice(files, attempts[..n]) {
      var i, k :| 0 <= i < k < n && attempts[..n][i].patch.file == attempts[..n][k].patch.file
        && Appends(files, attempts[..n], i) && Appends(files, attempts[..n], k);
      assert Appends(files, attempts, i) && Appends(files, attempts, k)
        && attempts[i].patch.file == attempts[k].patch.file;
    }
    if TouchedTwice(files, attempts) {
      var i, k :| 0 <= i < k < |attempts| && attempts[i].patch.file == attempts[k].patch.file
        && Appends(files, attempts, i) && Appends(files, attempts, k);
      assert Appends(files, attempts[..n], i) && attempts[..n][i].patch.file == attempts[k].patch.file;
      if k < n {
        assert Appends(files, attempts[..n], k) && attempts[..n][k].patch.file == attempts[..n][i].patch.file;
      }
    }
  }

  /** Put back first saved first, as the code does it, every file is as it was exactly when no
      two patches append to the same file. */
  lemma {:induction false} ForwardOrderRestores(files: Files, attempts: seq<Attempt>, built: Files)
    requires Writes(attempts) && BuildLeaves(Applied(files, attempts), built)
    ensures Restored(built, Applied(files, attempts).backups) == files <==> !TouchedTwice(files, attempts)
  {
    RestoresIfSavedOnce(files, attempts, built);
    SavedOnceIff(files, attempts);
  }

  lemma {:induction false} AttemptsWrite(patches: seq<Patch>, stop: nat, written: nat)
    ensures Writes(Attempts(patches, stop, written))
    ensures |patches| <= stop ==> forall a :: a in Attempts(patches, stop, written) ==> a.written > 0
  {
    if patches != [] {
      var n := |patches| - 1;
      AttemptsWrite(patches[..n], stop, written);
    }
  }

  /** Patches for different files are always undone. */
  lemma {:induction false} DistinctFilesRestored(files: Files, attempts: seq<Attempt>, built: Files)
    requires Writes(attempts) && BuildLeaves(Applied(files, attempts), built)
    requires forall i, k :: 0 <= i < k < |attempts| ==> attempts[i].patch.file != attempts[k].patch.file
    ensures Restored(built, Applied(files, attempts).backups) == files
  {
    hide Appends, Applied, Restored;
    ForwardOrderRestores(files, attempts, built);
  }

  /** One file, two patches: what stays behind is the first line. */
  lemma TwoPatchesLeaveTheFirst(files: Files, file: string, one: string, two: string)
    requires file in files && !Contains(files[file], one)
    requires !Contains(files[file] + Appended(files[file], one), two)
    ensures var attempts := [Attempt(Patch(file, one), |one| + 2)] + [Attempt(Patch(file, two), |two| + 2)];
      var t := Applied(files, attempts);
      var end := Restored(t.files, t.backups);
      file in end && end[file] == files[file] + Appended(files[file], one)
  {
    var a, b := Attempt(Patch(file, one), |one| + 2), Attempt(Patch(file, two), |two| + 2);
    var t1 := OneStep(Tree(files, []), a);
    assert [a][..0] == [] && ([a] + [b])[..1] == [a];
    assert Applied(files, [a]) == t1;
    var t := OneStep(t1, b);
    assert Applied(files, [a] + [b]) == t;
    hide Applied, Contains, Appended, Step, Restored;
    LastSavedSnoc(t1.backups, Backup(file, Some(t1.files[file])), file);
    RestoredAt(t.files, t.backups, file);
  }

  /** A patch that finds its file, and not its line. */
  lemma OneStep(t: Tree, a: Attempt) returns (t': Tree)
    requires a.patch.file in t.files && !Contains(t.files[a.patch.file], a.patch.line)
    requires a.written == |a.patch.line| + 2
    ensures t' == Step(t, a)
    ensures t'.backups == t.backups + [Backup(a.patch.file, Some(t.files[a.patch.file]))]
    ensures var original := t.files[a.patch.file];
      t'.files == t.files[a.patch.file := original + Appended(original, a.patch.line)]
  {
    hide Contains;
    t' := Step(t, a);
  }
}
