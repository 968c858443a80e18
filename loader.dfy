/** Handler loading (main.js lines 22-57): the two directory scans that fill the client's
    command and component tables and build the slash-command registration batch.

    A directory is `None` when it does not exist, otherwise the sequence of its entries in
    the order the directory listing gives them. */
module Loader {
  import opened Wrappers
  import opened Handlers

  predicate EndsWith(s: string, suffix: string)
  {
    |suffix| <= |s| && s[|s| - |suffix|..] == suffix
  }

  /** The listing filter `f.endsWith('.js')`. */
  predicate IsJsFile(name: string)
  {
    EndsWith(name, ".js")
  }

  /** The entries the loader walks, in listing order: exactly those whose name ends in `.js`. */
  function JsFiles<M>(entries: seq<DirEntry<M>>): (files: seq<DirEntry<M>>)
    ensures |files| <= |entries|
    ensures forall e <- files :: e in entries && IsJsFile(e.name)
    ensures forall i :: 0 <= i < |entries| && IsJsFile(entries[i].name) ==> entries[i] in files
  {
    if entries == [] then []
    else (if IsJsFile(entries[0].name) then [entries[0]] else []) + JsFiles(entries[1..])
  }

  /** The filter keeps listing order and takes each entry once: filtering a listing in two
      parts and joining the results is filtering the whole. */
  lemma {:induction false} JsFilesAppend<M>(a: seq<DirEntry<M>>, b: seq<DirEntry<M>>)
    ensures JsFiles(a + b) == JsFiles(a) + JsFiles(b)
    decreases |a|
  {
    if a == [] {
      assert a + b == b;
    } else {
      var head := if IsJsFile(a[0].name) then [a[0]] else [];
      assert (a + b)[0] == a[0];
      assert (a + b)[1..] == a[1..] + b;
      assert JsFiles(a + b) == head + JsFiles(a[1..] + b);
      JsFilesAppend(a[1..], b);
      assert head + (JsFiles(a[1..]) + JsFiles(b)) == (head + JsFiles(a[1..])) + JsFiles(b);
    }
  }

  /** A single entry is walked iff its name ends in `.js`. */
  lemma JsFilesSingle<M>(e: DirEntry<M>)
    ensures JsFiles([e]) == if IsJsFile(e.name) then [e] else []
  {
  }

  /** The files a loader walks: none at all when the directory does not exist. */
  function Listing<M>(dir: Option<seq<DirEntry<M>>>): seq<DirEntry<M>>
  {
    if dir.None? then [] else JsFiles(dir.value)
  }

  /** The table key of a command file, or `None` when it lacks `data` or `execute`. */
  function CommandKey(m: CommandModule): Option<string>
  {
    if m.data.Some? && m.hasExecute then Some(m.data.value.name) else None
  }

  /** The table key of a component file, or `None` when it lacks `execute` or its `id` is
      missing or empty (an empty string is falsy, so `comp?.id` rejects it). */
  function ComponentKey(m: ComponentModule): Option<string>
  {
    if m.id.Some? && m.id.value != "" && m.hasExecute then Some(m.id.value) else None
  }

  /** The table after `Collection.set` has been applied, in order, for every file that
      `key` accepts: a later file with the same key overwrites the earlier one. */
  function Index<M>(table: map<string, M>, files: seq<DirEntry<M>>, key: M -> Option<string>): map<string, M>
    decreases |files|
  {
    if files == [] then table
    else
      var before := Index(table, files[..|files| - 1], key);
      var last := files[|files| - 1].exports;
      match key(last)
      case Some(k) => before[k := last]
      case None => before
  }

  /** The names of the files `key` rejects, in order: one warning each. */
  function Rejected<M>(files: seq<DirEntry<M>>, key: M -> Option<string>): seq<string>
    decreases |files|
  {
    if files == [] then []
    else
      var before := Rejected(files[..|files| - 1], key);
      var last := files[|files| - 1];
      if key(last.exports).None? then before + [last.name] else before
  }

  /** The registration batch: the `data` of every accepted command file, in order, one
      entry per file even when names repeat. */
  function Schemas(files: seq<DirEntry<CommandModule>>): seq<CommandData>
    decreases |files|
  {
    if files == [] then []
    else
      var before := Schemas(files[..|files| - 1]);
      var last := files[|files| - 1].exports;
      if CommandKey(last).Some? then before + [last.data.value] else before
  }

  /** The process-wide client, as far as the loader touches it: its two handler tables. */
  class Client {
    var commands: map<string, CommandModule>
    var components: map<string, ComponentModule>

    constructor ()
      ensures commands == map[] && components == map[]
    {
      commands := map[];
      components := map[];
    }

    /** Scans the commands directory: every `.js` file whose exports carry `data` and
        `execute` is stored under its command name and its `data` is appended to the
        batch; any other file is skipped and named in `skipped`. */
    method LoadCommands(dir: Option<seq<DirEntry<CommandModule>>>)
      returns (slashCommands: seq<CommandData>, skipped: seq<string>)
      modifies this
      ensures commands == Index(old(commands), Listing(dir), CommandKey)
      ensures components == old(components)
      ensures slashCommands == Schemas(Listing(dir))
      ensures skipped == Rejected(Listing(dir), CommandKey)
    {
      slashCommands, skipped := [], [];
      if dir.Some? {
        var files := JsFiles(dir.value);
        for i := 0 to |files|
          invariant commands == Index(old(commands), files[..i], CommandKey)
          invariant components == old(components)
          invariant slashCommands == Schemas(files[..i])
          invariant skipped == Rejected(files[..i], CommandKey)
        {
          assert files[..i + 1][..i] == files[..i];
          var command := files[i].exports;
          if command.data.Some? && command.hasExecute {
            commands := commands[command.data.value.name := command];
            slashCommands := slashCommands + [command.data.value];
          } else {
            skipped := skipped + [files[i].name];
          }
        }
        assert files[..|files|] == files;
      }
    }

    /** Scans the components directory: every `.js` file whose exports carry a non-empty
        `id` and `execute` is stored under that id; any other file is skipped. */
    method LoadComponents(dir: Option<seq<DirEntry<ComponentModule>>>) returns (skipped: seq<string>)
      modifies this
      ensures components == Index(old(components), Listing(dir), ComponentKey)
      ensures commands == old(commands)
      ensures skipped == Rejected(Listing(dir), ComponentKey)
    {
      skipped := [];
      if dir.Some? {
        var files := JsFiles(dir.value);
        for i := 0 to |files|
          invariant components == Index(old(components), files[..i], ComponentKey)
          invariant commands == old(commands)
          invariant skipped == Rejected(files[..i], ComponentKey)
        {
          assert files[..i + 1][..i] == files[..i];
          var comp := files[i].exports;
          if comp.id.Some? && comp.id.value != "" && comp.hasExecute {
            components := components[comp.id.value := comp];
          } else {
            skipped := skipped + [files[i].name];
          }
        }
        assert files[..|files|] == files;
      }
    }
  }

  /** A key is in the table exactly when it was there before or some accepted file has it. */
  lemma {:induction false} IndexKeys<M>(table: map<string, M>, files: seq<DirEntry<M>>, key: M -> Option<string>, k: string)
    ensures k in Index(table, files, key) <==>
            k in table || exists i :: 0 <= i < |files| && key(files[i].exports) == Some(k)
    decreases |files|
  {
    if files != [] {
      var n := |files| - 1;
      var init := files[..n];
      IndexKeys(table, init, key, k);
      if exists i :: 0 <= i < |files| && key(files[i].exports) == Some(k) {
        var i :| 0 <= i < |files| && key(files[i].exports) == Some(k);
        if i < n {
          assert init[i] == files[i];
        }
      }
      if exists i :: 0 <= i < |init| && key(init[i].exports) == Some(k) {
        var i :| 0 <= i < |init| && key(init[i].exports) == Some(k);
        assert files[i] == init[i];
      }
    }
  }

  /** A key that no accepted file carries keeps what the table held before. */
  lemma {:induction false} IndexUntouched<M>(table: map<string, M>, files: seq<DirEntry<M>>, key: M -> Option<string>, k: string)
    requires forall i :: 0 <= i < |files| ==> key(files[i].exports) != Some(k)
    ensures k in Index(table, files, key) <==> k in table
    ensures k in table ==> Index(table, files, key)[k] == table[k]
    decreases |files|
  {
    if files != [] {
      var init := files[..|files| - 1];
      forall i | 0 <= i < |init| ensures key(init[i].exports) != Some(k) {
        assert init[i] == files[i];
      }
      IndexUntouched(table, init, key, k);
    }
  }

  /** Last one wins: an accepted file with key `k` and no accepted file after it with the
      same key is what the table holds under `k`. */
  lemma {:induction false} IndexLastWins<M>(table: map<string, M>, files: seq<DirEntry<M>>, key: M -> Option<string>, i: nat, k: string)
    requires i < |files| && key(files[i].exports) == Some(k)
    requires forall j :: i < j < |files| ==> key(files[j].exports) != Some(k)
    ensures k in Index(table, files, key) && Index(table, files, key)[k] == files[i].exports
    decreases |files|
  {
    var n := |files| - 1;
    if i < n {
      var init := files[..n];
      forall j | i < j < |init| ensures key(init[j].exports) != Some(k) {
        assert init[j] == files[j];
      }
      IndexLastWins(table, init, key, i, k);
    }
  }

  /** A rejected file changes nothing, wherever it stands: loading goes on as if it were
      not there. */
  lemma {:induction false} IndexSkipsRejected<M>(table: map<string, M>, before: seq<DirEntry<M>>, bad: DirEntry<M>, after: seq<DirEntry<M>>, key: M -> Option<string>)
    requires key(bad.exports).None?
    ensures Index(table, before + [bad] + after, key) == Index(table, before + after, key)
    decreases |after|
  {
    if after == [] {
      assert (before + [bad] + after)[..|before| + 1 - 1] == before;
      assert before + after == before;
    } else {
      var n := |after| - 1;
      var with := before + [bad] + after;
      var without := before + after;
      assert with[..|with| - 1] == before + [bad] + after[..n];
      assert without[..|without| - 1] == before + after[..n];
      IndexSkipsRejected(table, before, bad, after[..n], key);
    }
  }

  /** The same for the registration batch. */
  lemma {:induction false} SchemasSkipRejected(before: seq<DirEntry<CommandModule>>, bad: DirEntry<CommandModule>, after: seq<DirEntry<CommandModule>>)
    requires CommandKey(bad.exports).None?
    ensures Schemas(before + [bad] + after) == Schemas(before + after)
    decreases |after|
  {
    if after == [] {
      assert (before + [bad] + after)[..|before| + 1 - 1] == before;
      assert before + after == before;
    } else {
      var n := |after| - 1;
      var with := before + [bad] + after;
      var without := before + after;
      assert with[..|with| - 1] == before + [bad] + after[..n];
      assert without[..|without| - 1] == before + after[..n];
      SchemasSkipRejected(before, bad, after[..n]);
    }
  }

  /** Every command file is either in the batch or warned about, never both: the batch is
      shorter than the listing by exactly the number of malformed files. */
  lemma {:induction false} LoadAccounting(files: seq<DirEntry<CommandModule>>)
    ensures |Schemas(files)| + |Rejected(files, CommandKey)| == |files|
    decreases |files|
  {
    if files != [] {
      LoadAccounting(files[..|files| - 1]);
    }
  }

  /** The table grows by at most one key per accepted file. */
  lemma {:induction false} IndexSize<M>(table: map<string, M>, files: seq<DirEntry<M>>, key: M -> Option<string>)
    ensures |Index(table, files, key)| + |Rejected(files, key)| <= |table| + |files|
    decreases |files|
  {
    if files != [] {
      var init := files[..|files| - 1];
      IndexSize(table, init, key);
      var before := Index(table, init, key);
      var last := files[|files| - 1].exports;
      if key(last).Some? {
        var k := key(last).value;
        if k in before {
          assert before[k := last].Keys == before.Keys;
        } else {
          assert before[k := last].Keys == before.Keys + {k};
        }
      }
    }
  }

  /** Duplicate names collapse in the table but not in the batch: the batch is never
      shorter than the command table built from the same files. */
  lemma {:induction false} CommandTableSize(files: seq<DirEntry<CommandModule>>)
    ensures |Index(map[], files, CommandKey)| <= |Schemas(files)|
  {
    IndexSize(map[], files, CommandKey);
    LoadAccounting(files);
  }
}
