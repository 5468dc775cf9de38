/** Numbered migrations: which sets of files are accepted, and how a database moves through them. */
module Migrations {
  import opened Characters
  import opened Options
  import opened Tails

  // ---- file names ----

  predicate BodyChar(c: char) { IsDigit(c) || 'a' <= c <= 'z' || c == '_' }

  const SUFFIX := ".sql"

  function Digit(c: char): (d: nat)
    requires IsDigit(c)
    ensures d < 10
  {
    c as int - '0' as int
  }

  /** `NNNN_lower_snake_case.sql` */
  predicate IsName(name: string) {
    && |name| >= 10
    && IsDigit(name[0]) && IsDigit(name[1]) && IsDigit(name[2]) && IsDigit(name[3])
    && name[4] == '_'
    && (forall k :: 5 <= k < |name| - 4 ==> BodyChar(name[k]))
    && name[|name| - 4..] == SUFFIX
  }

  function Number(name: string): (n: Option<nat>)
    ensures n.Some? <==> IsName(name)
  {
    if IsName(name) then
      Some(1000 * Digit(name[0]) + 100 * Digit(name[1]) + 10 * Digit(name[2]) + Digit(name[3]))
    else None
  }

  // ---- discovery ----

  datatype Discovery = Found(files: seq<(nat, string)>) | BadName(name: string) | Twice(name: string) | Gap

  ghost predicate HasNumber(names: seq<string>, v: nat) {
    exists i :: 0 <= i < |names| && Number(names[i]) == Some(v)
  }

  ghost predicate AllNamed(names: seq<string>) {
    forall i :: 0 <= i < |names| ==> IsName(names[i])
  }

  ghost predicate NoneTwice(names: seq<string>) {
    forall i, j :: 0 <= i < j < |names| ==> Number(names[i]) != Number(names[j])
  }

  /** From 1 up to the highest number no number is missing. */
  ghost predicate Contiguous(names: seq<string>) {
    forall i, v :: 0 <= i < |names| && Number(names[i]).Some? && 1 <= v <= Number(names[i]).value ==> HasNumber(names, v)
  }

  /** The files in the order of their numbers, without a break, each number with its own file. */
  ghost predicate Listed(names: seq<string>, files: seq<(nat, string)>, first: nat) {
    && (forall k :: 0 <= k < |files| ==> files[k].0 == first + k && files[k].1 in names && Number(files[k].1) == Some(first + k))
    && (forall v: nat :: HasNumber(names, v) <==> first <= v < first + |files|)
  }

  /** The dictionary after some names: each number with the file that carries it. */
  ghost predicate Collected(found: map<nat, string>, names: seq<string>) {
    && (forall v: nat :: v in found <==> HasNumber(names, v))
    && (forall v: nat :: v in found ==> found[v] in names && Number(found[v]) == Some(v))
  }

  lemma CollectOne(found: map<nat, string>, names: seq<string>, n: nat)
    requires n < |names| && Collected(found, names[..n]) && IsName(names[n])
    ensures Collected(found[Number(names[n]).value := names[n]], names[..n + 1])
  {
    var version := Number(names[n]).value;
    var more := found[version := names[n]];
    hide HasNumber, Number, IsName;
    assert names[n] == names[..n + 1][n];
    forall v: nat
      ensures v in more <==> HasNumber(names[..n + 1], v)
      ensures v in more ==> more[v] in names[..n + 1] && Number(more[v]) == Some(v)
    {
      HasOneMore(names, n, v);
      if v in found { InLonger(names, n, found[v]); }
    }
  }

  lemma InLonger(names: seq<string>, n: nat, name: string)
    requires n < |names| && name in names[..n]
    ensures name in names[..n + 1]
  {
    assert names[..n + 1] == names[..n] + [names[n]];
  }

  lemma HasOneMore(names: seq<string>, n: nat, v: nat)
    requires n < |names|
    ensures HasNumber(names[..n + 1], v) <==> HasNumber(names[..n], v) || Number(names[n]) == Some(v)
  {
    hide Number, IsName;
    if HasNumber(names[..n], v) {
      var i :| 0 <= i < n && Number(names[..n][i]) == Some(v);
      assert names[..n + 1][i] == names[..n][i];
    }
    if Number(names[n]) == Some(v) {
      assert names[..n + 1][n] == names[n];
    }
    if HasNumber(names[..n + 1], v) {
      var i :| 0 <= i < n + 1 && Number(names[..n + 1][i]) == Some(v);
      if i < n { assert names[..n][i] == names[..n + 1][i]; }
    }
  }

  /** Without a gap the keys are 1..max, and 0 as well if some file is numbered 0. */
  ghost predicate GapIn(found: map<nat, string>, max: nat) {
    exists v: nat :: 1 <= v <= max && v !in found
  }

  ghost predicate IsMax(found: map<nat, string>, max: nat) {
    max in found && forall v: nat :: v in found ==> v <= max
  }

  lemma TwiceFound(names: seq<string>, n: nat)
    requires n < |names| && Number(names[n]).Some? && HasNumber(names[..n], Number(names[n]).value)
    ensures !NoneTwice(names)
  {
    hide Number, IsName;
    var i :| 0 <= i < n && Number(names[..n][i]) == Number(names[n]);
    assert names[..n][i] == names[i];
  }

  lemma NotTwice(names: seq<string>, n: nat)
    requires n < |names| && Number(names[n]).Some? && !HasNumber(names[..n], Number(names[n]).value)
    requires AllNamed(names[..n]) && NoneTwice(names[..n])
    ensures AllNamed(names[..n + 1]) && NoneTwice(names[..n + 1])
  {
    hide Number;
    forall i | 0 <= i < n
      ensures Number(names[i]) != Number(names[n]) && IsName(names[i])
    {
      assert names[..n][i] == names[i];
    }
    assert forall i, j :: 0 <= i < j < n ==> Number(names[..n][i]) != Number(names[..n][j]);
    hide IsName;
  }

  lemma GapIsGap(found: map<nat, string>, max: nat, names: seq<string>)
    requires Collected(found, names) && IsMax(found, max)
    ensures Contiguous(names) <==> !GapIn(found, max)
  {
    hide Number, IsName;
    var m :| 0 <= m < |names| && Number(names[m]) == Some(max);
    forall i | 0 <= i < |names| && Number(names[i]).Some?
      ensures Number(names[i]).value <= max
    {
      assert HasNumber(names, Number(names[i]).value);
    }
    hide HasNumber;
  }

  ghost predicate Entries(found: map<nat, string>, max: nat, files: seq<(nat, string)>) {
    var first := if 0 in found then 0 else 1;
    && |files| == max + 1 - first
    && forall k :: 0 <= k < |files| ==> first + k in found && files[k] == (first + k, found[first + k])
  }

  lemma IsListed(found: map<nat, string>, max: nat, names: seq<string>, files: seq<(nat, string)>)
    requires Collected(found, names) && IsMax(found, max) && !GapIn(found, max)
    requires Entries(found, max, files)
    ensures Listed(names, files, if HasNumber(names, 0) then 0 else 1)
  {
    hide Number, IsName, HasNumber;
  }

  /** The entries in ascending order of their numbers. */
  method InOrder(found: map<nat, string>, max: nat) returns (files: seq<(nat, string)>)
    requires IsMax(found, max) && !GapIn(found, max)
    ensures Entries(found, max, files)
  {
    var first := if 0 in found then 0 else 1;
    files := [];
    var v := first;
    assert max >= first;
    while v <= max
      invariant first <= v <= max + 1 && |files| == v - first
      invariant forall k :: 0 <= k < |files| ==> first + k in found && files[k] == (first + k, found[first + k])
    {
      assert v in found;
      files := files + [(v, found[v])];
      v := v + 1;
    }
  }

  method Discover(names: seq<string>) returns (d: Discovery)
    ensures d.Found? <==> AllNamed(names) && NoneTwice(names) && Contiguous(names)
    ensures d.Found? ==> Listed(names, d.files, if HasNumber(names, 0) then 0 else 1)
  {
    hide Number, IsName;
    var found: map<nat, string> := map[];
    var max := 0;
    for n := 0 to |names|
      invariant Collected(found, names[..n])
      invariant AllNamed(names[..n]) && NoneTwice(names[..n])
      invariant n == 0 || IsMax(found, max)
    {
      var version := Number(names[n]);
      if version.None? {
        return BadName(names[n]);
      }
      if version.value in found {
        TwiceFound(names, n);
        return Twice(names[n]);
      }
      NotTwice(names, n);
      CollectOne(found, names, n);
      max := if n == 0 || max < version.value then version.value else max;
      found := found[version.value := names[n]];
    }
    assert names[..|names|] == names;
    if names == [] {
      return Found([]);
    }
    GapIsGap(found, max, names);
    var v := 1;
    while v <= max
      invariant 1 <= v && forall u: nat :: 1 <= u < v && u <= max ==> u in found
    {
      if v !in found {
        return Gap;
      }
      v := v + 1;
    }
    var files := InOrder(found, max);
    IsListed(found, max, names, files);
    return Found(files);
  }

  /** What is discovered is numbered 1..n if and only if no file carries the number 0. */
  lemma FromOneExactly(names: seq<string>, files: seq<(nat, string)>)
    requires Listed(names, files, if HasNumber(names, 0) then 0 else 1) && names != [] && AllNamed(names)
    ensures (forall k :: 0 <= k < |files| ==> files[k].0 == k + 1) <==> !HasNumber(names, 0)
  {
    assert IsName(names[0]);
    assert HasNumber(names, Number(names[0]).value);
    hide Number, IsName, HasNumber;
    assert 0 < |files|;
    assert files[0].0 == if HasNumber(names, 0) then 0 else 1;
  }

  /** A file numbered 0000 is not refused. */
  lemma ZeroIsAccepted()
    ensures var names := ["0000_a.sql"]; AllNamed(names) && NoneTwice(names) && Contiguous(names) && HasNumber(names, 0)
  {
    var name := "0000_a.sql";
    assert name[|name| - 4..] == SUFFIX;
    assert Number(["0000_a.sql"][0]) == Some(0);
  }

  // ---- applying ----

  /** A database: its schema, and the version in its header. */
  datatype Db<S> = Db(schema: S, version: nat)

  /** A migration: its number and its statements. */
  datatype Migration = Migration(version: nat, statements: seq<string>)

  function RunScript<S>(schema: S, statements: seq<string>, execute: (S, string) -> Option<S>): Option<S> {
    if statements == [] then Some(schema)
    else
      var earlier := RunScript(schema, statements[..|statements| - 1], execute);
      if earlier.None? then None else execute(earlier.value, statements[|statements| - 1])
  }

  /** The schema that the first `version` migrations make, one after the other, from an empty one. */
  function Fold<S>(empty: S, scripts: seq<Migration>, version: nat, execute: (S, string) -> Option<S>): Option<S>
    requires version <= |scripts|
  {
    if version == 0 then Some(empty)
    else
      var earlier := Fold(empty, scripts, version - 1, execute);
      if earlier.None? then None else RunScript(earlier.value, scripts[version - 1].statements, execute)
  }

  /** The files discovered, read in their order. */
  function ReadAll(files: seq<(nat, string)>, text: string -> seq<string>): (r: seq<Migration>)
    ensures |r| == |files|
  {
    seq(|files|, i requires 0 <= i < |files| => Migration(files[i].0, text(files[i].1)))
  }

  /** Numbered without a break, from 1 or from 0: the two forms a discovered list can have. */
  ghost predicate Numbered(files: seq<Migration>) {
    forall k :: 0 <= k < |files| ==> files[0].version <= 1 && files[k].version == files[0].version + k
  }

  /** Number k + 1 stands at place k: the list without a file numbered 0, which no database ever lacks. */
  function Scripts(files: seq<Migration>): seq<Migration> {
    if files != [] && files[0].version == 0 then files[1..] else files
  }

  function Newer(current: nat): Migration -> bool {
    (m: Migration) => m.version > current
  }

  function Pending(files: seq<Migration>, current: nat): seq<Migration> {
    Filter(files, Newer(current))
  }

  lemma ListedIsNumbered(names: seq<string>, files: seq<(nat, string)>, first: nat, text: string -> seq<string>)
    requires Listed(names, files, first) && first <= 1
    ensures Numbered(ReadAll(files, text))
    ensures |Scripts(ReadAll(files, text))| == |files| - if files != [] && first == 0 then 1 else 0
  {
    hide Number, HasNumber;
  }

  lemma {:induction false} NewerIsATail(files: seq<Migration>, current: nat, skipped: nat)
    requires Numbered(files) && skipped <= |files|
    requires forall k :: 0 <= k < skipped ==> files[k].version <= current
    requires forall k :: skipped <= k < |files| ==> files[k].version > current
    ensures Pending(files, current) == files[skipped..]
  {
    if files == [] {
    } else {
      var init := files[..|files| - 1];
      assert files == init + [files[|files| - 1]];
      if skipped == |files| {
        NewerIsATail(init, current, skipped - 1);
        assert init[skipped - 1..] == [];
      } else {
        NewerIsATail(init, current, skipped);
        assert files[skipped..] == init[skipped..] + [files[|files| - 1]];
      }
    }
  }

  /** Whatever form the list has, what is pending are the scripts after the current one. */
  lemma PendingAreTheRest(files: seq<Migration>, current: nat)
    requires Numbered(files)
    ensures var scripts := Scripts(files);
            && (forall k :: 0 <= k < |scripts| ==> scripts[k].version == k + 1)
            && Pending(files, current) == if current <= |scripts| then scripts[current..] else []
  {
    var scripts := Scripts(files);
    var zero := |files| - |scripts|;
    hide Pending;
    NewerIsATail(files, current, if current <= |scripts| then current + zero else |files|);
    assert current <= |scripts| ==> files[current + zero..] == scripts[current..];
  }

  /** The schema is what the header says; a database newer than the files says nothing about itself. */
  ghost predicate Consistent<S(!new)>(db: Db<S>, empty: S, scripts: seq<Migration>, execute: (S, string) -> Option<S>) {
    db.version <= |scripts| ==> Fold(empty, scripts, db.version, execute) == Some(db.schema)
  }

  class Connection<S(!new)> {
    const execute: (S, string) -> Option<S>
    var committed: Db<S>
    var working: Option<Db<S>>
    /** What another reader would find after each statement. */
    ghost var trail: seq<Db<S>>

    constructor (execute: (S, string) -> Option<S>, db: Db<S>)
      ensures this.execute == execute && committed == db && working == None && trail == [db]
    {
      this.execute, committed, working, trail := execute, db, None, [db];
    }

    /**
     `BEGIN; <statements>; PRAGMA user_version; COMMIT` as one script.  It stops at a statement that fails, or at
     `broken`, where the environment fails it; an open transaction is left to the caller.
     */
    method ExecuteScript(statements: seq<string>, version: nat, broken: nat) returns (ok: bool)
      requires working.None?
      modifies this
      ensures ok ==> RunScript(old(committed).schema, statements, execute) == Some(committed.schema)
                     && committed.version == version && working.None?
      ensures !ok ==> committed == old(committed)
      ensures |old(trail)| <= |trail| && trail[..|old(trail)|] == old(trail)
      ensures forall k :: |old(trail)| <= k < |trail| ==> trail[k] == old(committed) || (ok && trail[k] == committed)
    {
      working := Some(committed);
      trail := trail + [committed];
      for i := 0 to |statements|
        invariant working.Some? && committed == old(committed) && working.value.version == committed.version
        invariant RunScript(committed.schema, statements[..i], execute) == Some(working.value.schema)
        invariant |old(trail)| <= |trail| && trail[..|old(trail)|] == old(trail)
        invariant forall k :: |old(trail)| <= k < |trail| ==> trail[k] == committed
      {
        var after := execute(working.value.schema, statements[i]);
        if i == broken || after.None? {
          return false;
        }
        assert statements[..i + 1][..i] == statements[..i];
        working := Some(working.value.(schema := after.value));
        trail := trail + [committed];
      }
      assert statements[..|statements|] == statements;
      if broken == |statements| {
        return false;
      }
      working := Some(working.value.(version := version));
      trail := trail + [committed];
      if broken == |statements| + 1 {
        return false;
      }
      committed := working.value;
      working := None;
      trail := trail + [committed];
      ok := true;
    }

    method Rollback()
      modifies this
      ensures working.None? && committed == old(committed) && trail == old(trail)
    {
      working := None;
    }

    /**
     Applies what is newer than the database, in order.  Whatever fails and wherever, the schema is the fold of
     exactly the migrations the header counts, at the end and at every moment on the way.
     */
    method Migrate(files: seq<Migration>, broken: nat -> nat, ghost empty: S) returns (version: Option<nat>)
      requires working.None? && Numbered(files)
      requires Consistent(committed, empty, Scripts(files), execute)
      modifies this
      ensures working.None? && Consistent(committed, empty, Scripts(files), execute)
      ensures committed.version >= old(committed).version
      ensures version.Some? ==> version.value == committed.version >= |Scripts(files)|
      ensures version.None? ==> committed.version < |Scripts(files)|
      ensures old(committed).version <= |Scripts(files)| ==> committed.version <= |Scripts(files)|
      ensures old(committed).version >= |Scripts(files)| ==>
              committed == old(committed) && version == Some(committed.version)
      ensures |old(trail)| <= |trail|
      ensures forall k :: |old(trail)| <= k < |trail| ==> Consistent(trail[k], empty, Scripts(files), execute)
    {
      ghost var scripts := Scripts(files);
      var current := committed.version;
      var pending := Pending(files, current);
      hide Fold, RunScript, Numbered, Scripts, Pending, Consistent;
      PendingAreTheRest(files, current);
      for i := 0 to |pending|
        invariant committed.version == current + i && working.None?
        invariant i == 0 ==> committed == old(committed)
        invariant Consistent(committed, empty, scripts, execute)
        invariant |old(trail)| <= |trail|
        invariant forall k :: |old(trail)| <= k < |trail| ==> Consistent(trail[k], empty, scripts, execute)
      {
        ghost var before := committed;
        ghost var seen := trail;
        assert pending[i] == scripts[current + i];
        var ok := ExecuteScript(pending[i].statements, pending[i].version, broken(pending[i].version));
        if ok {
          FoldStep(before, committed, empty, scripts, execute);
        }
        TrailConsistent(seen, trail, |old(trail)|, before, committed, ok, empty, scripts, execute);
        if !ok {
          if working.Some? {
            Rollback();
          }
          return None;
        }
      }
      version := Some(committed.version);
    }
  }

  /** The script is what the file of its number holds. */
  ghost predicate FromFile(names: seq<string>, m: Migration, text: string -> seq<string>) {
    exists i :: 0 <= i < |names| && Number(names[i]) == Some(m.version) && m.statements == text(names[i])
  }

  lemma ScriptsFromFiles(names: seq<string>, files: seq<(nat, string)>, first: nat, text: string -> seq<string>)
    requires Listed(names, files, first)
    ensures forall k :: 0 <= k < |Scripts(ReadAll(files, text))| ==> FromFile(names, Scripts(ReadAll(files, text))[k], text)
  {
    hide Number, HasNumber;
    var all := ReadAll(files, text);
    forall k | 0 <= k < |files|
      ensures FromFile(names, all[k], text)
    {
      assert files[k].1 in names;
      var i :| 0 <= i < |names| && names[i] == files[k].1;
      assert Number(names[i]) == Some(all[k].version);
    }
    hide FromFile;
  }

  /** A discovered list, file 0000 included, is what `Migrate` takes; its scripts carry the numbers from 1 up. */
  lemma DiscoveredIsMigrated(names: seq<string>, files: seq<(nat, string)>, text: string -> seq<string>)
    requires Listed(names, files, if HasNumber(names, 0) then 0 else 1)
    ensures Numbered(ReadAll(files, text))
    ensures var scripts := Scripts(ReadAll(files, text));
            && (forall k :: 0 <= k < |scripts| ==> scripts[k].version == k + 1)
            && (forall v: nat :: HasNumber(names, v) && v != 0 <==> 1 <= v <= |scripts|)
            && (forall k :: 0 <= k < |scripts| ==> FromFile(names, scripts[k], text))
  {
    ScriptsFromFiles(names, files, if HasNumber(names, 0) then 0 else 1, text);
    ListedIsNumbered(names, files, if HasNumber(names, 0) then 0 else 1, text);
    PendingAreTheRest(ReadAll(files, text), 0);
    hide Number, Pending, HasNumber, Numbered, FromFile;
  }

  lemma FoldStep<S(!new)>(before: Db<S>, after: Db<S>, empty: S, scripts: seq<Migration>, execute: (S, string) -> Option<S>)
    requires Consistent(before, empty, scripts, execute) && before.version < |scripts| && after.version == before.version + 1
    requires RunScript(before.schema, scripts[before.version].statements, execute) == Some(after.schema)
    ensures Consistent(after, empty, scripts, execute)
  {
    hide RunScript;
  }

  lemma TrailConsistent<S(!new)>(seen: seq<Db<S>>, trail: seq<Db<S>>, start: nat, before: Db<S>, after: Db<S>, ok: bool,
                                 empty: S, scripts: seq<Migration>, execute: (S, string) -> Option<S>)
    requires start <= |seen| <= |trail| && trail[..|seen|] == seen
    requires Consistent(before, empty, scripts, execute) && (ok ==> Consistent(after, empty, scripts, execute))
    requires forall k :: start <= k < |seen| ==> Consistent(seen[k], empty, scripts, execute)
    requires forall k :: |seen| <= k < |trail| ==> trail[k] == before || (ok && trail[k] == after)
    ensures forall k :: start <= k < |trail| ==> Consistent(trail[k], empty, scripts, execute)
  {
    forall k | start <= k < |trail|
      ensures Consistent(trail[k], empty, scripts, execute)
    {
      if k < |seen| { assert trail[..|seen|][k] == trail[k]; }
    }
  }

  // ---- resuming ----

  lemma {:induction false} FoldOfPrefix<S(!new)>(empty: S, scripts: seq<Migration>, more: seq<Migration>, version: nat,
                                                 execute: (S, string) -> Option<S>)
    requires version <= |scripts| <= |more| && forall k :: 0 <= k < version ==> more[k] == scripts[k]
    ensures Fold(empty, more, version, execute) == Fold(empty, scripts, version, execute)
  {
    if version > 0 {
      FoldOfPrefix(empty, scripts, more, version - 1, execute);
    }
  }

  /** A database stays consistent when later files are fixed or added, as long as the applied ones stay. */
  lemma StaysConsistent<S(!new)>(db: Db<S>, empty: S, scripts: seq<Migration>, more: seq<Migration>, execute: (S, string) -> Option<S>)
    requires Consistent(db, empty, scripts, execute) && db.version <= |scripts| <= |more|
    requires forall k :: 0 <= k < db.version ==> more[k] == scripts[k]
    ensures Consistent(db, empty, more, execute)
  {
    FoldOfPrefix(empty, scripts, more, db.version, execute);
    hide Fold;
  }

  /** Two databases at one version have one schema: how often a run was broken off on the way leaves no mark. */
  lemma SameVersionSameSchema<S(!new)>(a: Db<S>, b: Db<S>, empty: S, scripts: seq<Migration>, execute: (S, string) -> Option<S>)
    requires Consistent(a, empty, scripts, execute) && Consistent(b, empty, scripts, execute)
    requires a.version == b.version <= |scripts|
    ensures a == b
  {
    hide Fold;
  }

  /**
   A run that failed, taken up again with the failing file mended or the directory extended, ends where one clean
   run over the final directory ends; and a further run changes nothing.
   */
  method ResumedAsIfClean<S(!new)>(broken: Connection<S>, clean: Connection<S>, first: seq<Migration>, final: seq<Migration>,
                                   faults: nat -> nat, later: nat -> nat, once: nat -> nat, ghost empty: S)
    returns (resumed: Option<nat>, direct: Option<nat>, again: Option<nat>)
    requires broken != clean && broken.execute == clean.execute && broken.working.None? && clean.working.None?
    requires broken.committed == clean.committed == Db(empty, 0)
    requires Numbered(first) && Numbered(final) && |Scripts(first)| <= |Scripts(final)|
    requires forall v :: 0 <= v < |Scripts(first)| && Reached(empty, Scripts(first), v, broken.execute) ==>
      Scripts(final)[v] == Scripts(first)[v]
    modifies broken, clean
    ensures resumed.Some? && direct.Some? ==> broken.committed == clean.committed && again == resumed
  {
    hide Fold, RunScript, Numbered, Scripts;
    ghost var before, after := Scripts(first), Scripts(final);
    FoldOfNone(empty, before, broken.execute);
    FoldOfNone(empty, after, broken.execute);
    var _ := broken.Migrate(first, faults, empty);
    ReachedBelow(broken.committed, empty, before, broken.execute);
    StaysConsistent(broken.committed, empty, before, after, broken.execute);
    resumed := broken.Migrate(final, later, empty);
    direct := clean.Migrate(final, once, empty);
    if resumed.Some? && direct.Some? {
      SameVersionSameSchema(broken.committed, clean.committed, empty, after, broken.execute);
    }
    again := broken.Migrate(final, later, empty);
  }

  /** The first `v + 1` migrations all apply. */
  ghost predicate Reached<S(!new)>(empty: S, scripts: seq<Migration>, v: nat, execute: (S, string) -> Option<S>) {
    v < |scripts| && Fold(empty, scripts, v + 1, execute).Some?
  }

  lemma FoldOfNone<S(!new)>(empty: S, scripts: seq<Migration>, execute: (S, string) -> Option<S>)
    ensures Consistent(Db(empty, 0), empty, scripts, execute)
  {
  }

  lemma {:induction false} FoldReaches<S(!new)>(empty: S, scripts: seq<Migration>, version: nat, v: nat, execute: (S, string) -> Option<S>)
    requires v < version <= |scripts| && Fold(empty, scripts, version, execute).Some?
    ensures Reached(empty, scripts, v, execute)
  {
    if v + 1 < version {
      FoldReaches(empty, scripts, version - 1, v, execute);
    }
  }

  lemma ReachedBelow<S(!new)>(db: Db<S>, empty: S, scripts: seq<Migration>, execute: (S, string) -> Option<S>)
    requires db.version <= |scripts| && Consistent(db, empty, scripts, execute)
    ensures forall v :: 0 <= v < db.version ==> Reached(empty, scripts, v, execute)
  {
    forall v | 0 <= v < db.version
      ensures Reached(empty, scripts, v, execute)
    {
      FoldReaches(empty, scripts, db.version, v, execute);
    }
  }
}
