/**
 Replacing a configuration file: the new text goes to a temporary file, the old file is backed up under a name
 that is free, and the temporary file replaces the old one. Any step of the file system may fail.

 Files are those of one directory, by name. The environment says which steps fail, what random part the name of
 a temporary file gets, and how much a failing write leaves behind.
 */
module ConfigWriter {
  import opened Base
  import opened Strings

  type Files = map<string, string>

  datatype Environment = Environment(fails: nat -> bool, random: nat -> string, torn: nat -> string)

  /** What the caller sees: `True`, `False`, or an error raised by the removal of the temporary file. */
  datatype Outcome = Wrote | Refused | Broke

  // ---------------------------------------------------------------- names

  /** The position of the dot that starts the suffix of a name; the length of the name if it has none. */
  function SuffixStart(name: string, i: nat): (r: nat)
    requires i <= |name|
    ensures r <= |name| && (r < |name| ==> name[r] == '.' && 0 < r < |name| - 1)
  {
    if i == 0 then |name|
    else if name[i - 1] == '.' then (if 0 < i - 1 && i < |name| then i - 1 else |name|)
    else SuffixStart(name, i - 1)
  }

  function Stem(name: string): string { name[..SuffixStart(name, |name|)] }

  function WithSuffix(name: string, suffix: string): string { Stem(name) + suffix }

  /** The `n`-th name tried for a backup. */
  function Backup(config: string, n: nat): string {
    var base := WithSuffix(config, ".conf.bak");
    if n == 0 then base else WithSuffix(base, ".bak." + Decimal(n))
  }

  function TempName(name: string, random: string): string { "." + name + "." + random }

  lemma StemOfBase(stem: string)
    requires stem != ""
    ensures Stem(stem + ".conf.bak") == stem + ".conf"
  {
    var name := stem + ".conf.bak";
    var n := |name|;
    assert name[n - 1] == 'k' && name[n - 2] == 'a' && name[n - 3] == 'b' && name[n - 4] == '.';
    assert SuffixStart(name, n) == SuffixStart(name, n - 1) == SuffixStart(name, n - 2) == SuffixStart(name, n - 3);
    assert name[..n - 4] == stem + ".conf";
  }

  lemma BackupIs(config: string, n: nat)
    requires config != ""
    ensures Stem(config) != ""
    ensures Backup(config, n) == Stem(config) + (if n == 0 then ".conf.bak" else ".conf.bak." + Decimal(n))
  {
    StemOfBase(Stem(config));
  }

  /** No two tries have the same name. */
  lemma BackupsDiffer(config: string, m: nat, n: nat)
    requires config != "" && m != n
    ensures Backup(config, m) != Backup(config, n)
  {
    BackupIs(config, m);
    BackupIs(config, n);
    var stem := Stem(config);
    if m == 0 || n == 0 {
      assert |Backup(config, m)| != |Backup(config, n)|;
    } else {
      if Decimal(m) == Decimal(n) { DecimalInjective(m, n); }
      var p := stem + ".conf.bak.";
      assert Backup(config, m) == p + Decimal(m) && Backup(config, n) == p + Decimal(n);
      assert (p + Decimal(m))[|p|..] == Decimal(m);
    }
  }

  /** A temporary file never has the name of a backup or of the file it is for. */
  lemma TempIsNoBackup(config: string, random: string, n: nat)
    requires config != ""
    ensures TempName(config, random) != Backup(config, n) && TempName(config, random) != config
  {
    BackupIs(config, n);
    var k := |Stem(config)|;
    assert TempName(config, random)[k + 1] == '.';
    assert Backup(config, n)[k + 1] == 'c';
  }

  // ---------------------------------------------------------------- what may be seen on the disk

  /** Every file of `before` is still there, unchanged. */
  predicate Extends(before: Files, now: Files) {
    forall f :: f in before ==> f in now && now[f] == before[f]
  }

  /** Only the text of one file may differ. */
  predicate SameBut(before: Files, name: string, now: Files) {
    now.Keys == before.Keys && forall f :: f in before && f != name ==> now[f] == before[f]
  }

  /** The configuration is whole, old or new, and every other earlier file is unchanged. */
  predicate Whole(before: Files, config: string, text: string, now: Files) {
    && (forall f :: f in before && f != config ==> f in now && now[f] == before[f])
    && (config in before ==> config in now)
    && (config in now ==> now[config] == text || (config in before && now[config] == before[config]))
  }

  /** `n` is the first number whose backup name is free. */
  predicate FirstFree(files: Files, config: string, n: nat) {
    Backup(config, n) !in files && forall m: nat :: m < n ==> Backup(config, m) in files
  }

  /** The directory after a successful write. */
  predicate Written(before: Files, config: string, text: string, now: Files, n: nat) {
    if config in before then FirstFree(before, config, n) && now == before[Backup(config,
        n) := before[config]][config := text]
    else now == before[config := text]
  }

  /** A set of that many different names fits into the directory. */
  lemma {:induction false} NamesFit(files: Files, config: string, n: nat)
    requires config != "" && forall m: nat :: m < n ==> Backup(config, m) in files
    ensures n <= |files|
  {
    hide Backup;
    var names := set m: nat | m < n :: Backup(config, m);
    NamesCount(config, n);
    assert names <= files.Keys;
    SubsetFits(names, files.Keys);
  }

  lemma {:induction false} NamesCount(config: string, n: nat)
    requires config != ""
    ensures |set m: nat | m < n :: Backup(config, m)| == n
  {
    hide Backup;
    var names := set m: nat | m < n :: Backup(config, m);
    if n == 0 {
      assert names == {};
    } else {
      NamesCount(config, n - 1);
      var fewer := set m: nat | m < n - 1 :: Backup(config, m);
      assert Backup(config, n - 1) !in fewer by {
        forall m: nat | m < n - 1
          ensures Backup(config, m) != Backup(config, n - 1)
        {
          BackupsDiffer(config, m, n - 1);
        }
      }
      assert names == fewer + {Backup(config, n - 1)};
    }
  }

  lemma {:induction false} SubsetFits<T>(a: set<T>, b: set<T>)
    requires a <= b
    ensures |a| <= |b|
  {
    if a != {} {
      var x :| x in a;
      SubsetFits(a - {x}, b - {x});
    }
  }

  // ---------------------------------------------------------------- when nothing goes wrong

  ghost predicate NeverFails(env: Environment) { forall t :: !env.fails(t) }

  /** No step failed from one time to another. */
  predicate NoneFailed(env: Environment, from: nat, to: nat) { forall t :: from <= t < to ==> !env.fails(t) }

  /** A temporary file for `name` always gets a name that is free. */
  ghost predicate FreshFor(env: Environment, name: string, files: Files) {
    forall t :: TempName(name, env.random(t)) !in files
  }

  ghost predicate IsDrawn(env: Environment, name: string, temp: string) {
    exists t :: temp == TempName(name, env.random(t))
  }

  /** All temporary names are free, and those for a backup are not the one for the configuration. */
  ghost predicate NamesFree(env: Environment, config: string, files: Files) {
    && FreshFor(env, config, files)
    && forall n, temp :: IsDrawn(env, config, temp) ==> FreshFor(env, Backup(config, n), files[temp := ""])
  }

  // ---------------------------------------------------------------- the disk

  class Disk {
    const env: Environment
    var tick: nat
    var files: Files
    ghost var seen: seq<Files>  // every state the directory has been in

    ghost predicate Valid()
      reads this
    {
      seen != [] && seen[|seen| - 1] == files
    }

    constructor (env: Environment, files: Files)
      ensures Valid() && this.files == files && this.env == env && seen == [files]
    {
      this.env := env;
      tick := 0;
      this.files := files;
      seen := [files];
    }

    /** Whether the next step fails. */
    method Fails() returns (failed: bool)
      modifies this`tick
      ensures NeverFails(env) ==> !failed
      ensures failed == env.fails(old(tick)) && tick == old(tick) + 1
    {
      failed := env.fails(tick);
      tick := tick + 1;
    }

    method Put(name: string, text: string)
      requires Valid()
      modifies this`files, this`seen
      ensures Valid() && files == old(files)[name := text] && seen == old(seen) + [files]
    {
      files := files[name := text];
      seen := seen + [files];
    }

    /** Move a file onto a name, in one step. */
    method Replace(from: string, to: string) returns (ok: bool)
      requires Valid() && from in files && from != to
      modifies this
      ensures Valid()
      ensures NeverFails(env) ==> ok
      ensures ok ==> files == old(files)[to := old(files)[from]] - {from} && seen == old(seen) + [files]
      ensures !ok ==> files == old(files) && seen == old(seen)
      ensures ok == !env.fails(old(tick)) && tick == old(tick) + 1
    {
      var failed := Fails();
      ok := !failed;
      if ok {
        files := files[to := files[from]] - {from};
        seen := seen + [files];
      }
    }

    /** Remove a temporary file; a missing one is no error. */
    method Unlink(name: string) returns (ok: bool)
      requires Valid()
      modifies this
      ensures Valid()
      ensures ok ==> files == old(files) - {name} && seen == old(seen) + [files]
      ensures !ok ==> files == old(files) && seen == old(seen)
      ensures ok == !env.fails(old(tick)) && tick == old(tick) + 1
    {
      var failed := Fails();
      ok := !failed;
      if ok {
        files := files - {name};
        seen := seen + [files];
      }
    }

    /** Create an empty temporary file under a new name, or fail. */
    method MakeTemp(name: string) returns (temp: Option<string>)
      requires Valid()
      modifies this
      ensures Valid()
      ensures temp.Some? ==>
                && temp.value !in old(files) && files == old(files)[temp.value := ""]
                && seen == old(seen) + [files] && IsDrawn(env, name, temp.value)
      ensures NeverFails(env) && FreshFor(env, name, old(files)) ==> temp.Some?
      ensures temp.None? ==> files == old(files) && seen == old(seen)
      ensures tick == old(tick) + 1 && (temp.Some? ==> !env.fails(old(tick)))
    {
      var failed := Fails();
      var random := env.random(tick);
      var t := TempName(name, random);
      if failed || t in files {
        return None;
      }
      Put(t, "");
      temp := Some(t);
    }

    /** Write a text to a file and make sure that it is on the disk; a failing write may leave anything there. */
    method Fill(name: string, text: string) returns (ok: bool)
      requires Valid() && name in files
      modifies this
      ensures Valid() && |old(seen)| < |seen| && old(seen) <= seen
      ensures forall k :: |old(seen)| <= k < |seen| ==> SameBut(old(files), name, seen[k])
      ensures ok ==> files == old(files)[name := text]
      ensures NeverFails(env) ==> ok
      ensures ok ==> tick == old(tick) + 2 && NoneFailed(env, old(tick), tick)
    {
      Put(name, env.torn(tick));
      var failed := Fails();
      if failed {
        return false;
      }
      Put(name, text);
      failed := Fails();
      ok := !failed;
    }

    /** Search a free name for the backup. It takes at most one try more than there are files. */
    method NextBackupPath(config: string) returns (found: Option<nat>, tries: nat)
      requires config != ""
      modifies this`tick
      ensures found.Some? ==> FirstFree(files, config, found.value)
      ensures tries <= |files| + 1
      ensures NeverFails(env) ==> found.Some?
      ensures found.Some? ==> tick == old(tick) + found.value + 1 && NoneFailed(env, old(tick), tick)
    {
      var n: nat := 0;
      tries := 0;
      while true
        invariant tick == old(tick) + n && NoneFailed(env, old(tick), tick)
        invariant tries == n && forall m: nat :: m < n ==> Backup(config, m) in files
        invariant n <= |files|
        decreases |files| - n
      {
        var failed := Fails();
        tries := tries + 1;
        if failed {
          return None, tries;
        }
        if Backup(config, n) !in files {
          return Some(n), tries;
        }
        NamesFit(files, config, n + 1);
        n := n + 1;
      }
    }

    /** Write a text to a temporary file for the given name. */
    method WriteAside(name: string, text: string) returns (temp: Option<string>, ok: bool)
      requires Valid()
      modifies this
      ensures Valid() && old(seen) <= seen
      ensures forall k :: |old(seen)| <= k < |seen| ==> Growing(old(files), name, seen[k])
      ensures Growing(old(files), name, files)
      ensures temp.Some? ==> temp.value !in old(files) && IsTemp(name, temp.value) && IsDrawn(env, name, temp.value)
      ensures ok ==> temp.Some? && files == old(files)[temp.value := text]
      ensures NeverFails(env) && FreshFor(env, name, old(files)) ==> ok
      ensures ok ==> tick == old(tick) + 4 && NoneFailed(env, old(tick), tick)
    {
      hide TempName, FreshFor, NeverFails;
      ok := false;
      temp := MakeTemp(name);
      if temp.None? {
        return;
      }
      TempIsApart(name, temp.value);
      ok := Fill(temp.value, text);
      if ok {
        var failed := Fails();
        ok := !failed;
      }
    }

    /** Copy the configuration to a temporary file and move that to the backup's name. */
    method WriteSecureBackup(config: string, n: nat) returns (ok: bool)
      requires Valid() && config in files && Backup(config, n) !in files
      modifies this
      ensures Valid() && old(seen) <= seen
      ensures forall k :: |old(seen)| <= k < |seen| ==> Extends(old(files), seen[k])
      ensures Extends(old(files), files)
      ensures ok ==> files == old(files)[Backup(config, n) := old(files)[config]]
      ensures NeverFails(env) && FreshFor(env, Backup(config, n), old(files)) ==> ok
      ensures ok ==> tick == old(tick) + 5 && NoneFailed(env, old(tick), tick)
    {
      hide Backup, IsTemp, IsDrawn, FreshFor, NeverFails;
      var backup := Backup(config, n);
      var temp;
      temp, ok := WriteAside(backup, files[config]);
      if temp.None? {
        return false;
      }
      TempIsApart(backup, temp.value);
      if ok {
        ok := Replace(temp.value, backup);
      }
      if !ok {
        var removed := Unlink(temp.value);
      }
    }

    /** Write the new text to a temporary file. */
    method WriteTemp(config: string, text: string) returns (temp: Option<string>, ok: bool)
      requires Valid() && config != ""
      modifies this
      ensures Valid() && old(seen) <= seen
      ensures forall k :: |old(seen)| <= k < |seen| ==> Growing(old(files), config, seen[k])
      ensures Growing(old(files), config, files)
      ensures temp.Some? ==> temp.value !in old(files) && IsTemp(config, temp.value) && IsDrawn(env, config, temp.value)
      ensures ok ==> temp.Some? && files == old(files)[temp.value := text]
      ensures NeverFails(env) && FreshFor(env, config, old(files)) ==> ok
      ensures ok ==> tick == old(tick) + 5 && NoneFailed(env, old(tick), tick)
    {
      hide FreshFor, NeverFails, IsTemp, IsDrawn;
      temp, ok := None, false;
      var failed := Fails();
      if !failed {
        temp, ok := WriteAside(config, text);
      }
    }

    /** Back up the configuration if there is one. */
    method BackUp(config: string) returns (n: nat, ok: bool)
      requires Valid() && config != ""
      modifies this
      ensures Valid() && old(seen) <= seen
      ensures forall k :: |old(seen)| <= k < |seen| ==>
                Extends(old(files), seen[k]) && (config in old(files) || seen[k] == old(files))
      ensures Extends(old(files), files)
      ensures ok && config in old(files) ==>
                FirstFree(old(files), config, n) && files == old(files)[Backup(config, n) := old(files)[config]]
      ensures config !in old(files) ==> files == old(files)
      ensures NeverFails(env) && (forall n :: FreshFor(env, Backup(config, n), old(files))) ==> ok
      ensures ok ==> tick == old(tick) + (if config in old(files) then n + 8 else 1) && NoneFailed(env, old(tick), tick)
    {
      hide Backup, NeverFails, FreshFor;
      n, ok := 0, false;
      var failed := Fails();
      if failed {
        return;
      }
      if config in files {
        var found, tries := NextBackupPath(config);
        failed := Fails();
        if found.None? || failed {
          return;
        }
        n := found.value;
        ok := WriteSecureBackup(config, n);
      } else {
        ok := true;
      }
    }

    /** Everything that comes before the configuration is replaced. */
    method Prepare(config: string, text: string) returns (temp: Option<string>, n: nat, ok: bool)
      requires Valid() && config != ""
      modifies this
      ensures Valid() && old(seen) <= seen
      ensures forall k :: |old(seen)| <= k < |seen| ==> Growing(old(files), config, seen[k])
      ensures Growing(old(files), config, files)
      ensures temp.Some? ==> temp.value !in old(files) && IsTemp(config, temp.value)
      ensures ok ==> temp.Some? && Prepared(old(files), config, text, files, temp.value, n)
      ensures NeverFails(env) && NamesFree(env, config, old(files)) ==> ok
      ensures ok ==>
                tick == old(tick) + (if config in old(files) then n + 13 else 6) && NoneFailed(env, old(tick), tick)
    {
      hide Backup, IsTemp, IsDrawn, Growing, Extends, FirstFree, NeverFails, FreshFor;
      temp, ok := WriteTemp(config, text);
      n := 0;
      if ok {
        ghost var between, from := files, |seen|;
        TempIsApart(config, temp.value);
        FreshDespiteTemp(env, config, old(files), temp.value, text);
        n, ok := BackUp(config);
        forall k | from <= k < |seen|
          ensures Growing(old(files), config, seen[k])
        {
          GrowsOn(old(files), config, temp.value, text, between, seen[k]);
        }
        GrowsOn(old(files), config, temp.value, text, between, files);
        FreeWithoutTemp(old(files), config, temp.value, text, n);
      }
    }

    /** Remove the temporary file, if there is one; if that fails, so does the whole call. */
    method RemoveTemp(temp: Option<string>) returns (r: Outcome)
      requires Valid()
      modifies this
      ensures Valid() && r != Wrote
      ensures r == Broke <==> temp.Some? && env.fails(old(tick))
      ensures r == Refused && temp.Some? ==> files == old(files) - {temp.value} && seen == old(seen) + [files]
      ensures r == Broke || temp.None? ==> files == old(files) && seen == old(seen)
    {
      r := Refused;
      if temp.Some? {
        var removed := Unlink(temp.value);
        if !removed {
          r := Broke;
        }
      }
    }

    /** Prepare, replace, and remove the temporary file if it is left. */
    method Rewrite(config: string, text: string) returns (r: Outcome, n: nat)
      requires Valid() && config != ""
      modifies this
      ensures Valid() && old(seen) <= seen
      ensures forall k :: |old(seen)| <= k < |seen| ==> Whole(old(files), config, text, seen[k])
      ensures Whole(old(files), config, text, files)
      ensures r == Wrote ==> Written(old(files), config, text, files, n)
      ensures NeverFails(env) && NamesFree(env, config, old(files)) ==> r == Wrote
      ensures r == Wrote ==>
                tick == old(tick) + (if config in old(files) then n + 15 else 8) && NoneFailed(env, old(tick), tick)
    {
      hide Backup, IsTemp, Growing, Whole, Prepared, Written, NeverFails, NamesFree;
      var temp, ok;
      temp, n, ok := Prepare(config, text);
      forall now
        ensures Growing(old(files), config, now) ==> Whole(old(files), config, text, now)
      {
        GrowingIsWhole(old(files), config, text, now);
      }
      if ok {
        ghost var ready := files;
        TempIsApart(config, temp.value);
        PreparedHasTemp(old(files), config, text, files, temp.value, n);
        ok := Replace(temp.value, config);
        if ok {
          PreparedIsWritten(old(files), config, text, ready, temp.value, n);
          var failed := Fails();
          return if failed then Refused else Wrote, n;
        }
      }
      if temp.Some? {
        RemovingTemp(old(files), config, files, temp.value);
      }
      r := RemoveTemp(temp);
    }

    /**
     * Replace the configuration. Whatever fails, in every state of the directory the configuration is whole, old
     * or new, and no other earlier file has changed. Success over an existing file leaves a fresh backup of it,
     * and nothing else; it comes about whenever no step fails and temporary names are free.
     */
    method WriteConfig(config: string, text: string) returns (r: Outcome, n: nat)
      requires Valid() && config != ""
      modifies this
      ensures Valid() && old(seen) <= seen
      ensures forall k, f :: |old(seen)| <= k < |seen| && f in old(files) && f != config ==>
                f in seen[k] && seen[k][f] == old(files)[f]
      ensures forall k :: |old(seen)| <= k < |seen| ==>
                && (config in old(files) ==> config in seen[k])
                && (config in seen[k] ==>
                      seen[k][config] == text || (config in old(files) && seen[k][config] == old(files)[config]))
      ensures r == Wrote && config in old(files) ==>
                && Backup(config, n) !in old(files) && (forall m: nat :: m < n ==> Backup(config, m) in old(files))
                && files == old(files)[Backup(config, n) := old(files)[config]][config := text]
      ensures r == Wrote && config !in old(files) ==> files == old(files)[config := text]
      ensures NeverFails(env) && NamesFree(env, config, old(files)) ==> r == Wrote
      ensures r == Wrote ==>
                tick == old(tick) + (if config in old(files) then n + 15 else 8) && NoneFailed(env, old(tick), tick)
    {
      hide Backup, Whole, Written, NeverFails, NamesFree;
      r, n := Rewrite(config, text);
      forall k | |old(seen)| <= k < |seen|
        ensures forall f :: f in old(files) && f != config ==> f in seen[k] && seen[k][f] == old(files)[f]
        ensures config in old(files) ==> config in seen[k]
        ensures config in seen[k] ==>
                  seen[k][config] == text || (config in old(files) && seen[k][config] == old(files)[config])
      {
        WholeIs(old(files), config, text, seen[k]);
      }
      if r == Wrote {
        WrittenIs(old(files), config, text, files, n);
      }
    }
  }

  /** A directory in which only files other than the configuration may have been added. */
  predicate Growing(before: Files, config: string, now: Files) {
    Extends(before, now) && (config in now ==> config in before)
  }

  predicate Prepared(before: Files, config: string, text: string, now: Files, temp: string, n: nat) {
    if config in before
    then FirstFree(before, config, n) && now == before[temp := text][Backup(config, n) := before[config]]
    else now == before[temp := text]
  }

  ghost predicate IsTemp(config: string, temp: string) { exists r :: temp == TempName(config, r) }

  lemma TempIsApart(config: string, temp: string)
    requires IsTemp(config, temp)
    ensures temp != config
  {
  }

  lemma FreshDespiteTemp(env: Environment, config: string, before: Files, temp: string, text: string)
    requires IsDrawn(env, config, temp)
    ensures NamesFree(env, config, before) ==> forall n :: FreshFor(env, Backup(config, n), before[temp := text])
  {
    hide Backup, TempName, IsDrawn;
    if NamesFree(env, config, before) {
      forall n
        ensures FreshFor(env, Backup(config, n), before[temp := text])
      {
        assert FreshFor(env, Backup(config, n), before[temp := ""]);
        assert before[temp := text].Keys == before[temp := ""].Keys;
      }
    }
  }

  lemma WrittenIs(before: Files, config: string, text: string, now: Files, n: nat)
    requires Written(before, config, text, now, n)
    ensures config in before ==>
              && Backup(config, n) !in before && (forall m: nat :: m < n ==> Backup(config, m) in before)
              && now == before[Backup(config, n) := before[config]][config := text]
    ensures config !in before ==> now == before[config := text]
  {
    hide Backup;
  }

  lemma WholeIs(before: Files, config: string, text: string, now: Files)
    requires Whole(before, config, text, now)
    ensures forall f :: f in before && f != config ==> f in now && now[f] == before[f]
    ensures config in before ==> config in now
    ensures config in now ==> now[config] == text || (config in before && now[config] == before[config])
  {
  }

  lemma GrowingIsWhole(before: Files, config: string, text: string, now: Files)
    ensures Growing(before, config, now) ==> Whole(before, config, text, now)
  {
  }

  lemma RemovingTemp(before: Files, config: string, now: Files, temp: string)
    requires Growing(before, config, now) && temp !in before
    ensures Growing(before, config, now - {temp})
  {
  }

  lemma GrowsOn(before: Files, config: string, temp: string, text: string, between: Files, now: Files)
    requires between == before[temp := text] && temp !in before && temp != config
    requires Extends(between, now) && (config in between || now == between)
    ensures Growing(before, config, now)
  {
  }

  lemma FreeWithoutTemp(before: Files, config: string, temp: string, text: string, n: nat)
    requires config != "" && IsTemp(config, temp)
    ensures FirstFree(before[temp := text], config, n) ==> FirstFree(before, config, n)
  {
    hide Backup;
    forall m
      ensures temp != Backup(config, m)
    {
      TempIsNotBackup(config, temp, m);
    }
  }

  lemma TempIsNotBackup(config: string, temp: string, m: nat)
    requires config != "" && IsTemp(config, temp)
    ensures temp != Backup(config, m)
  {
    hide Backup, TempName;
    var r :| temp == TempName(config, r);
    TempIsNoBackup(config, r, m);
  }

  lemma PreparedHasTemp(before: Files, config: string, text: string, ready: Files, temp: string, n: nat)
    requires config != "" && IsTemp(config, temp) && Prepared(before, config, text, ready, temp, n)
    ensures temp in ready && ready[temp] == text
  {
    hide Backup, FirstFree;
    TempIsNotBackup(config, temp, n);
  }

  lemma PreparedIsWritten(before: Files, config: string, text: string, ready: Files, temp: string, n: nat)
    requires config != "" && IsTemp(config, temp) && temp !in before && temp != config
    requires Prepared(before, config, text, ready, temp, n)
    ensures var after := ready[config := text] - {temp};
            Written(before, config, text, after, n) && Whole(before, config, text, after)
  {
    hide Backup;
    TempIsNotBackup(config, temp, n);
    var after := ready[config := text] - {temp};
    if config in before {
      assert after == before[Backup(config, n) := before[config]][config := text];
    } else {
      assert after == before[config := text];
    }
  }

  /** The stem of a name ends before its last dot, unless that stands at an end of the name. */
  lemma StemIs(a: string, b: string)
    requires a != "" && b != "" && '.' !in b
    ensures Stem(a + "." + b) == a
    ensures '.' !in a ==> Stem(a) == a && Stem("." + a) == "." + a && Stem(a + ".") == a + "."
  {
    var name := a + "." + b;
    LastDot(name, |a|, |name|);
    assert name[..|a|] == a;
    if '.' !in a {
      NoDot(a, |a|);
      var hidden, open := "." + a, a + ".";
      LastDot(hidden, 0, |hidden|);
      LastDot(open, |a|, |open|);
    }
  }

  lemma {:induction false} LastDot(name: string, d: nat, i: nat)
    requires d < i <= |name| && name[d] == '.' && forall k :: d < k < i ==> name[k] != '.'
    ensures SuffixStart(name, i) == if 0 < d < |name| - 1 then d else |name|
  {
    if i - 1 > d {
      LastDot(name, d, i - 1);
    }
  }

  lemma {:induction false} NoDot(name: string, i: nat)
    requires i <= |name| && '.' !in name
    ensures SuffixStart(name, i) == |name|
  {
    if i > 0 {
      NoDot(name, i - 1);
    }
  }

  /** The names that the search tries for "ov.conf". */
  lemma BackupsOfDefault(n: nat)
    requires n > 0
    ensures Backup("ov.conf", 0) == "ov.conf.bak" && Backup("ov.conf", n) == "ov.conf.bak." + Decimal(n)
    ensures TempName("ov.conf", "x") == ".ov.conf.x"
  {
    StemIs("ov", "conf");
    assert "ov.conf" == "ov" + "." + "conf";
    BackupIs("ov.conf", 0);
    BackupIs("ov.conf", n);
  }
}
