/** src/data.py: loads every dataset named in the registry from the data
    directory, falls back from UTF-8 to Latin-1 when a file does not decode,
    coerces the customer identifier column to nullable integers, checks each
    table for its required columns and collects the tables by file name.

    The specification functions (`SafeRead`, `NormalizeCustomerId`,
    `LoadFile`, `Steps`, `Collect`, `Load`, `Lookup`) say what happens, including the file system accesses;
    the methods `ReadCsvSafely`, `LoadOne`, `LoadAll` and `GetDf` follow the
    source's control flow and are proved to do exactly that. */
module Data {
  import opened Wrappers
  import opened Tables
  import opened Schema
  import opened Files

  /** The exceptions that leave `load_all` and `get_df`. */
  datatype LoadError =
    | FileNotFound(path: Path)                              // raised by load_all for an absent file
    | MissingColumns(filename: string, missing: seq<string>) // the ValueError raised by _validate
    | ReadFailed(cause: ReadError)                          // propagated from read_csv
    | KeyMissing(name: string)                              // KeyError from get_df

  /** An outcome together with the file system accesses made to reach it. */
  datatype Run<T> = Run(result: Result<T, LoadError>, log: seq<Access>)

  /** What the module-level globals and the libraries supply: the stored
      files, `REQUIRED`, `DATA_DIR`, and pandas' text-to-number parser. */
  datatype Context = Context(
    files: map<Path, StoredFile>,
    registry: Registry,
    dataDir: Path,
    numeric: string -> Option<int>)

  const CustomerId := "codice_cliente"

  // ---------------------------------------------------------------------------
  // _validate

  /** `xs` is obtained from `ys` by deleting elements (order kept). */
  predicate IsSubsequence(xs: seq<string>, ys: seq<string>)
    decreases |ys|
  {
    if ys == [] then xs == []
    else IsSubsequence(xs, ys[1..]) || (xs != [] && xs[0] == ys[0] && IsSubsequence(xs[1..], ys[1..]))
  }

  /** The list comprehension of `_validate`: every required name the header
      lacks, each as often as it is required, in registry order, and
      nothing else. */
  function Missing(required: seq<string>, columns: seq<string>): (missing: seq<string>)
    ensures IsSubsequence(missing, required)
    ensures forall c :: c in missing <==> c in required && c !in columns
  {
    if required == [] then []
    else
      if required[0] in columns then Missing(required[1..], columns)
      else [required[0]] + Missing(required[1..], columns)
  }

  /** Each absent required name is reported as often as the registry lists
      it, and a present one never. */
  lemma {:induction false} MissingCounts(required: seq<string>, columns: seq<string>)
    ensures forall c :: multiset(Missing(required, columns))[c] == if c in columns then 0 else multiset(required)[c]
  {
    if required != [] {
      MissingCounts(required[1..], columns);
      assert required == [required[0]] + required[1..];
    }
  }

  /** `_validate(df, filename)`: passes exactly when the header holds every
      column registered for `filename` (none when it is not registered), and
      otherwise raises naming the file and the missing columns. */
  function Validate(df: Table, filename: string, registry: Registry): (check: Outcome<LoadError>)
    ensures check.Pass? <==> forall c :: c in Get(registry, filename, []) ==> c in Header(df)
    ensures check.Fail? ==>
              && check.error.MissingColumns?
              && check.error.filename == filename
              && check.error.missing != []
              && check.error.missing == Missing(Get(registry, filename, []), Header(df))
  {
    var missing := Missing(Get(registry, filename, []), Header(df));
    if missing != [] then
      assert missing[0] in missing;
      Fail(MissingColumns(filename, missing))
    else Pass
  }

  /** A file the registry does not know needs no columns and always passes. */
  lemma UnregisteredFilePasses(df: Table, filename: string, registry: Registry)
    requires filename !in Keys(registry)
    ensures Validate(df, filename, registry) == Pass
  {
  }

  /** `name` appears in single quotes in `text` at position `p`. */
  predicate Quoted(text: string, name: string, p: int) {
    0 <= p && p + |name| + 2 <= |text| && text[p..p + |name| + 2] == "'" + name + "'"
  }

  /** `name` appears in single quotes somewhere in `text`. */
  ghost predicate Listed(text: string, name: string) {
    exists p :: Quoted(text, name, p)
  }

  lemma QuotedShift(prefix: string, text: string, name: string, p: int)
    requires Quoted(text, name, p)
    ensures Quoted(prefix + text, name, |prefix| + p)
  {
    assert (prefix + text)[|prefix| + p..|prefix| + p + |name| + 2] == text[p..p + |name| + 2];
  }

  /** `repr` of a list of strings, for names without quotes or backslashes:
      bracketed, with every name of the list in single quotes. */
  function ListRepr(items: seq<string>): (text: string)
    ensures |text| >= 2 && text[0] == '[' && text[|text| - 1] == ']'
    ensures forall i | 0 <= i < |items| :: Listed(text, items[i])
  {
    var text := "[" + Items(items) + "]";
    assert forall i | 0 <= i < |items| :: Listed(text, items[i]) by {
      forall i | 0 <= i < |items|
        ensures Listed(text, items[i])
      {
        ItemQuoted(items, i);
        var p :| Quoted(Items(items), items[i], p);
        QuotedShift("[", Items(items), items[i], p);
        assert ("[" + Items(items)) + "]" == "[" + (Items(items) + "]");
        assert Quoted("[" + Items(items) + "]", items[i], 1 + p);
      }
    }
    text
  }

  function Items(items: seq<string>): string
  {
    if items == [] then ""
    else if |items| == 1 then "'" + items[0] + "'"
    else "'" + items[0] + "', " + Items(items[1..])
  }

  lemma {:induction false} ItemQuoted(items: seq<string>, i: nat)
    requires i < |items|
    ensures Listed(Items(items), items[i])
    decreases i
  {
    if |items| == 1 {
      assert Quoted(Items(items), items[0], 0);
    } else {
      var head := "'" + items[0] + "', ";
      var rest := Items(items[1..]);
      assert Items(items) == head + rest;
      if i == 0 {
        assert (head + rest)[0..|items[0]| + 2] == "'" + items[0] + "'";
        assert Quoted(Items(items), items[0], 0);
      } else {
        ItemQuoted(items[1..], i - 1);
        var p :| Quoted(rest, items[1..][i - 1], p);
        QuotedShift(head, rest, items[i], p);
        assert Quoted(Items(items), items[i], |head| + p);
      }
    }
  }

  /** The text of the `ValueError` raised by `_validate`: the file name in
      brackets first, then the list of missing columns, each named in quotes. */
  function MissingColumnsMessage(filename: string, missing: seq<string>): (text: string)
    ensures |text| >= 2 + |filename| + |ListRepr(missing)|
    ensures text[0] == '[' && text[1..1 + |filename|] == filename && text[1 + |filename|] == ']'
    ensures text[|text| - |ListRepr(missing)|..] == ListRepr(missing)
    ensures forall i | 0 <= i < |missing| :: Listed(text, missing[i])
  {
    var prefix := "[" + filename + "] Colonne mancanti: ";
    var list := ListRepr(missing);
    assert forall i | 0 <= i < |missing| :: Listed(prefix + list, missing[i]) by {
      forall i | 0 <= i < |missing|
        ensures Listed(prefix + list, missing[i])
      {
        var p :| Quoted(list, missing[i], p);
        QuotedShift(prefix, list, missing[i], p);
        assert Quoted(prefix + list, missing[i], |prefix| + p);
      }
    }
    prefix + list
  }

  /** The text of the `FileNotFoundError` raised by `load_all`: it ends with
      the resolved path. */
  function FileNotFoundMessage(path: Path): (text: string)
    ensures |text| > |path| && text[|text| - |path|..] == path
  {
    "File non trovato: " + path
  }

  // ---------------------------------------------------------------------------
  // _read_csv_safely

  function FromRead(r: Result<Table, ReadError>): Result<Table, LoadError>
  {
    match r
    case Success(t) => Success(t)
    case Failure(e) => Failure(ReadFailed(e))
  }

  predicate IsDecodeError(r: Result<Table, ReadError>) {
    r.Failure? && r.error.DecodeError?
  }

  /** `_read_csv_safely(path)`. */
  function SafeRead(files: map<Path, StoredFile>, path: Path): Run<Table>
  {
    var first := ReadAs(files, path, Utf8);
    if IsDecodeError(first) then Run(FromRead(ReadAs(files, path, Latin1)), [Read(path, Utf8), Read(path, Latin1)])
    else Run(FromRead(first), [Read(path, Utf8)])
  }

  /** `_read_csv_safely` reads the file as UTF-8 first and touches no other
      path; it reads it as Latin-1 only when the first read raised a decoding
      error, and then answers with the second read; any other outcome of the
      first read, success or error, is the answer unchanged. */
  lemma FallbackOnlyOnDecodeError(files: map<Path, StoredFile>, path: Path)
    ensures var run := SafeRead(files, path);
            var first := ReadAs(files, path, Utf8);
            && 1 <= |run.log| <= 2 && run.log[0] == Read(path, Utf8)
            && (forall a | a in run.log :: a.path == path)
            && (Read(path, Latin1) in run.log <==> IsDecodeError(first))
            && (|run.log| == 2 <==> IsDecodeError(first))
            && (!IsDecodeError(first) ==> run.result == FromRead(first))
            && (IsDecodeError(first) ==> run.result == FromRead(ReadAs(files, path, Latin1)))
  {
  }

  // ---------------------------------------------------------------------------
  // load_all

  /** The light normalisation of `load_all`: when the table has a
      `codice_cliente` column, each of its values is parsed as a number, with
      failures coerced to missing, and the column becomes nullable Int64. */
  function NormalizeCustomerId(df: Table, numeric: string -> Option<int>): Table
  {
    if CustomerId in Header(df) then Assign(df, CustomerId, ToNullableInts(Col(df, CustomerId), numeric))
    else df
  }

  /** The coercion never adds, removes, renames or touches any other column;
      every value of `codice_cliente` becomes an integer or missing, integers
      and missing values stay as they are, text that is a number becomes that
      number, and text becomes missing exactly when it is not a number. */
  lemma NormalizeCustomerIdSpec(df: Table, numeric: string -> Option<int>)
    ensures var r := NormalizeCustomerId(df, numeric);
            && Header(r) == Header(df)
            && (forall i | 0 <= i < |df.columns| && df.columns[i].name != CustomerId :: r.columns[i] == df.columns[i])
            && (CustomerId !in Header(df) ==> r == df)
            && (CustomerId in Header(df) ==>
                  var k := IndexOf(df, CustomerId);
                  && (forall i | 0 <= i < |df.columns| && i != k :: r.columns[i] == df.columns[i])
                  && |r.columns[k].cells| == |df.columns[k].cells|
                  && forall j | 0 <= j < |r.columns[k].cells| ::
                       && IsNullableInt(r.columns[k].cells[j])
                       && (IsNullableInt(df.columns[k].cells[j]) ==> r.columns[k].cells[j] == df.columns[k].cells[j])
                       && (df.columns[k].cells[j].Text? ==>
                             (r.columns[k].cells[j].NA? <==> numeric(df.columns[k].cells[j].text).None?))
                       && (df.columns[k].cells[j].Text? && numeric(df.columns[k].cells[j].text).Some? ==>
                             r.columns[k].cells[j] == Int(numeric(df.columns[k].cells[j].text).value)))
  {
  }

  /** Coercing twice is coercing once. */
  lemma NormalizeIdempotent(df: Table, numeric: string -> Option<int>)
    ensures NormalizeCustomerId(NormalizeCustomerId(df, numeric), numeric) == NormalizeCustomerId(df, numeric)
  {
    var once := NormalizeCustomerId(df, numeric);
    NormalizeCustomerIdSpec(df, numeric);
    if CustomerId in Header(df) {
      var k := IndexOf(df, CustomerId);
      assert IndexOf(once, CustomerId) == k;
      var twice := NormalizeCustomerId(once, numeric);
      assert twice.columns[k].cells == once.columns[k].cells;
      assert twice.columns == once.columns;
    }
  }

  /** Coercion happens before validation, yet cannot change its verdict: a
      file passes exactly when its parsed header has the required columns. */
  lemma NormalizeKeepsValidation(df: Table, filename: string, registry: Registry, numeric: string -> Option<int>)
    ensures Validate(NormalizeCustomerId(df, numeric), filename, registry) == Validate(df, filename, registry)
  {
    NormalizeCustomerIdSpec(df, numeric);
  }

  /** One iteration of the loop in `load_all`, for `filename`. */
  function LoadFile(ctx: Context, filename: string): Run<Table>
  {
    var path := Join(ctx.dataDir, filename);
    if path !in ctx.files then Run(Failure(FileNotFound(path)), [Probe(path)])
    else
      var read := SafeRead(ctx.files, path);
      var log := [Probe(path)] + read.log;
      match read.result
      case Failure(e) => Run(Failure(e), log)
      case Success(raw) =>
        var df := NormalizeCustomerId(raw, ctx.numeric);
        match Validate(df, filename, ctx.registry)
        case Fail(e) => Run(Failure(e), log)
        case Pass => Run(Success(df), log)
  }

  /** Loading one file probes its resolved path first and touches no other
      path; an absent file fails with `FileNotFoundError` on that path without
      being read; a read error is passed on as it is; a parsed file lacking
      required columns fails with `_validate`'s error naming the file and the
      columns its parsed header lacks; otherwise the file loads, and the table
      kept is the coerced one. */
  lemma LoadFileOutcome(ctx: Context, filename: string)
    ensures var run := LoadFile(ctx, filename);
            var path := Join(ctx.dataDir, filename);
            && |run.log| >= 1 && run.log[0] == Probe(path)
            && (forall a | a in run.log :: a.path == path)
            && (path !in ctx.files ==> run == Run(Failure(FileNotFound(path)), [Probe(path)]))
            && (run.result.Failure? && run.result.error.FileNotFound? ==> path !in ctx.files)
            && (path in ctx.files ==> run.log == [Probe(path)] + SafeRead(ctx.files, path).log)
            && (path in ctx.files && SafeRead(ctx.files, path).result.Failure? ==>
                  run.result == SafeRead(ctx.files, path).result)
            && (path in ctx.files && SafeRead(ctx.files, path).result.Success? &&
                !(forall c :: c in Get(ctx.registry, filename, []) ==> c in Header(SafeRead(ctx.files, path).result.value)) ==>
                  run.result == Failure(MissingColumns(filename,
                    Missing(Get(ctx.registry, filename, []), Header(SafeRead(ctx.files, path).result.value)))))
            && (run.result.Success? <==>
                  && path in ctx.files
                  && SafeRead(ctx.files, path).result.Success?
                  && forall c :: c in Get(ctx.registry, filename, []) ==> c in Header(SafeRead(ctx.files, path).result.value))
            && (run.result.Success? ==>
                  && run.result.value == NormalizeCustomerId(SafeRead(ctx.files, path).result.value, ctx.numeric)
                  && forall c :: c in Get(ctx.registry, filename, []) ==> c in Header(run.result.value))
  {
    var path := Join(ctx.dataDir, filename);
    FallbackOnlyOnDecodeError(ctx.files, path);
    if path in ctx.files && SafeRead(ctx.files, path).result.Success? {
      NormalizeKeepsValidation(SafeRead(ctx.files, path).result.value, filename, ctx.registry, ctx.numeric);
    }
  }

  /** The outcome of each of `keys` loaded on its own, in order. */
  function Steps(ctx: Context, keys: seq<string>): (steps: seq<Run<Table>>)
    ensures |steps| == |keys|
  {
    if keys == [] then [] else [LoadFile(ctx, keys[0])] + Steps(ctx, keys[1..])
  }

  lemma {:induction false} StepsAt(ctx: Context, keys: seq<string>, i: nat)
    requires i < |keys|
    ensures Steps(ctx, keys)[i] == LoadFile(ctx, keys[i])
  {
    if i > 0 {
      StepsAt(ctx, keys[1..], i - 1);
    }
  }

  lemma StepsAll(ctx: Context, keys: seq<string>)
    ensures forall i | 0 <= i < |keys| :: Steps(ctx, keys)[i] == LoadFile(ctx, keys[i])
  {
    forall i | 0 <= i < |keys| {
      StepsAt(ctx, keys, i);
    }
  }

  /** The loop of `load_all` over the remaining `keys`, given the outcome of
      loading each of them, with `acc` the datasets collected so far: a
      failure ends the loop, a success stores the table under its key. */
  function Collect(keys: seq<string>, steps: seq<Run<Table>>, acc: map<string, Table>): Run<map<string, Table>>
    requires |steps| == |keys|
    decreases |keys|
  {
    if keys == [] then Run(Success(acc), [])
    else
      match steps[0].result
      case Failure(e) => Run(Failure(e), steps[0].log)
      case Success(df) =>
        var rest := Collect(keys[1..], steps[1..], acc[keys[0] := df]);
        Run(rest.result, steps[0].log + rest.log)
  }

  /** `load_all()`. */
  function Load(ctx: Context): Run<map<string, Table>>
  {
    Collect(Keys(ctx.registry), Steps(ctx, Keys(ctx.registry)), map[])
  }

  /** The position of the first failing step, or `|steps|`. */
  function FirstFailure(steps: seq<Run<Table>>): (k: nat)
    ensures k <= |steps|
    ensures forall j | 0 <= j < k :: steps[j].result.Success?
    ensures k < |steps| ==> steps[k].result.Failure?
  {
    if steps == [] || steps[0].result.Failure? then 0
    else 1 + FirstFailure(steps[1..])
  }

  /** The accesses of the steps, one after the other. */
  function Logs(steps: seq<Run<Table>>): seq<Access>
  {
    if steps == [] then [] else steps[0].log + Logs(steps[1..])
  }

  /** Concatenation associates; the bookkeeping of the access log uses it. */
  lemma AppendAssociates<T>(a: seq<T>, b: seq<T>, c: seq<T>)
    ensures (a + b) + c == a + (b + c)
  {
  }

  /** Once a step fails, the loop ends with that step's error, having made
      the accesses of the steps up to and including it. */
  lemma {:induction false} CollectFailure(keys: seq<string>, steps: seq<Run<Table>>, acc: map<string, Table>)
    requires |steps| == |keys|
    requires FirstFailure(steps) < |steps|
    ensures var run := Collect(keys, steps, acc);
            var k := FirstFailure(steps);
            && run.result == Failure(steps[k].result.error)
            && run.log == Logs(steps[..k]) + steps[k].log
    decreases |keys|
  {
    var k := FirstFailure(steps);
    if k > 0 {
      var rest := Collect(keys[1..], steps[1..], acc[keys[0] := steps[0].result.value]);
      CollectFailure(keys[1..], steps[1..], acc[keys[0] := steps[0].result.value]);
      assert steps[..k][1..] == steps[1..][..k - 1];
      AppendAssociates(steps[0].log, Logs(steps[1..][..k - 1]), steps[k].log);
    }
  }

  /** One turn of the loop: the outcome of the step at `i` either ends it or
      is stored before the loop goes on with the keys after `i`. */
  lemma CollectStep(keys: seq<string>, steps: seq<Run<Table>>, i: nat, acc: map<string, Table>)
    requires |steps| == |keys| && i < |keys|
    ensures var run := Collect(keys[i..], steps[i..], acc);
            match steps[i].result
            case Failure(e) => run == Run(Failure(e), steps[i].log)
            case Success(df) =>
              var rest := Collect(keys[i + 1..], steps[i + 1..], acc[keys[i] := df]);
              run == Run(rest.result, steps[i].log + rest.log)
  {
    assert keys[i..][0] == keys[i] && keys[i..][1..] == keys[i + 1..];
    assert steps[i..][0] == steps[i] && steps[i..][1..] == steps[i + 1..];
  }

  /** When every step succeeds, so does the loop, having made the accesses of
      every step. */
  lemma {:induction false} CollectSucceeds(keys: seq<string>, steps: seq<Run<Table>>, acc: map<string, Table>)
    requires |steps| == |keys|
    requires FirstFailure(steps) == |steps|
    ensures var run := Collect(keys, steps, acc);
            run.result.Success? && run.log == Logs(steps)
    decreases |keys|
  {
    if keys != [] {
      CollectSucceeds(keys[1..], steps[1..], acc[keys[0] := steps[0].result.value]);
    }
  }

  /** A successful loop has stored exactly the earlier entries and the keys. */
  lemma {:induction false} CollectKeys(keys: seq<string>, steps: seq<Run<Table>>, acc: map<string, Table>)
    requires |steps| == |keys|
    requires Collect(keys, steps, acc).result.Success?
    ensures Collect(keys, steps, acc).result.value.Keys == acc.Keys + (set f | f in keys)
    decreases |keys|
  {
    if keys != [] {
      CollectKeys(keys[1..], steps[1..], acc[keys[0] := steps[0].result.value]);
      assert keys == [keys[0]] + keys[1..];
    }
  }

  /** A successful loop stores under each key the table of its step (the
      same whichever of its steps, when a key repeats) and keeps the earlier
      entries of other keys. */
  lemma {:induction false} CollectValues(keys: seq<string>, steps: seq<Run<Table>>, acc: map<string, Table>)
    requires |steps| == |keys|
    requires forall i, j | 0 <= i < j < |keys| && keys[i] == keys[j] :: steps[i] == steps[j]
    requires Collect(keys, steps, acc).result.Success?
    ensures var m := Collect(keys, steps, acc).result.value;
            && (forall i | 0 <= i < |keys| :: keys[i] in m && steps[i].result == Success(m[keys[i]]))
            && (forall f | f in acc && f !in keys :: f in m && m[f] == acc[f])
    decreases |keys|
  {
    if keys != [] {
      var acc' := acc[keys[0] := steps[0].result.value];
      CollectValues(keys[1..], steps[1..], acc');
      var m := Collect(keys, steps, acc).result.value;
      forall i | 0 <= i < |keys|
        ensures keys[i] in m && steps[i].result == Success(m[keys[i]])
      {
        if i > 0 {
          assert keys[i] == keys[1..][i - 1] && steps[i] == steps[1..][i - 1];
        } else if keys[0] in keys[1..] {
          var j :| 0 <= j < |keys[1..]| && keys[1..][j] == keys[0];
          assert steps[1..][j] == steps[j + 1] == steps[0];
        } else {
          assert keys[0] in acc' && keys[0] !in keys[1..];
        }
      }
      forall f | f in acc && f !in keys
        ensures f in m && m[f] == acc[f]
      {
        assert f !in keys[1..] && f != keys[0];
      }
    }
  }

  lemma {:induction false} LogsMember(steps: seq<Run<Table>>, a: Access)
    requires a in Logs(steps)
    ensures exists i :: 0 <= i < |steps| && a in steps[i].log
    decreases |steps|
  {
    if a !in steps[0].log {
      LogsMember(steps[1..], a);
      var i :| 0 <= i < |steps[1..]| && a in steps[1..][i].log;
      assert steps[1..][i] == steps[i + 1];
    }
  }

  /** `load_all` succeeds exactly when every registered file loads; the
      result then has one entry per registry key, each the coerced table
      read from that file, holding every required column. */
  lemma LoadSucceedsExactly(ctx: Context)
    ensures var run := Load(ctx);
            && (run.result.Success? <==> forall f | f in Keys(ctx.registry) :: LoadFile(ctx, f).result.Success?)
            && (run.result.Success? ==>
                  var datasets := run.result.value;
                  && datasets.Keys == set f | f in Keys(ctx.registry)
                  && forall f | f in datasets ::
                       && LoadFile(ctx, f).result == Success(datasets[f])
                       && (forall c | c in Get(ctx.registry, f, []) :: c in Header(datasets[f]))
                       && datasets[f] == NormalizeCustomerId(SafeRead(ctx.files, Join(ctx.dataDir, f)).result.value, ctx.numeric))
  {
    var keys := Keys(ctx.registry);
    var steps := Steps(ctx, keys);
    var k := FirstFailure(steps);
    StepsAll(ctx, keys);
    if k < |keys| {
      CollectFailure(keys, steps, map[]);
      assert keys[k] in keys;
    } else {
      CollectSucceeds(keys, steps, map[]);
      CollectKeys(keys, steps, map[]);
      CollectValues(keys, steps, map[]);
      var datasets := Load(ctx).result.value;
      forall f | f in keys
        ensures LoadFile(ctx, f).result.Success?
      {
        var i :| 0 <= i < |keys| && keys[i] == f;
      }
      forall f | f in datasets
        ensures LoadFile(ctx, f).result == Success(datasets[f])
        ensures forall c | c in Get(ctx.registry, f, []) :: c in Header(datasets[f])
        ensures datasets[f] == NormalizeCustomerId(SafeRead(ctx.files, Join(ctx.dataDir, f)).result.value, ctx.numeric)
      {
        var i :| 0 <= i < |keys| && keys[i] == f;
        LoadFileOutcome(ctx, f);
      }
    }
  }

  /** `load_all` works through the registry in order and stops at the first
      file that fails: every file before it loaded, its error is the result,
      and the accesses are exactly those of the files before it and of
      itself. On success every file was loaded once, in order. */
  lemma LoadStopsAtFirstFailure(ctx: Context)
    ensures var run := Load(ctx);
            var keys := Keys(ctx.registry);
            var steps := Steps(ctx, keys);
            var k := FirstFailure(steps);
            && (run.result.Failure? <==> k < |keys|)
            && (forall j | 0 <= j < k :: LoadFile(ctx, keys[j]).result.Success?)
            && (run.result.Failure? ==>
                  && LoadFile(ctx, keys[k]).result == Failure(run.result.error)
                  && run.log == Logs(steps[..k]) + LoadFile(ctx, keys[k]).log)
            && (run.result.Success? ==> run.log == Logs(steps))
  {
    var keys := Keys(ctx.registry);
    var steps := Steps(ctx, keys);
    var k := FirstFailure(steps);
    forall j | 0 <= j < k {
      StepsAt(ctx, keys, j);
    }
    if k == |keys| {
      CollectSucceeds(keys, steps, map[]);
    } else {
      StepsAt(ctx, keys, k);
      CollectFailure(keys, steps, map[]);
    }
  }

  /** After a failure no later file of the registry is probed or read. */
  lemma NoLaterFileTouched(ctx: Context)
    requires Valid(ctx.registry)
    ensures var run := Load(ctx);
            var keys := Keys(ctx.registry);
            var k := FirstFailure(Steps(ctx, keys));
            run.result.Failure? ==>
              forall a, j | a in run.log && k < j < |keys| :: a.path != Join(ctx.dataDir, keys[j])
  {
    var run := Load(ctx);
    var keys := Keys(ctx.registry);
    var steps := Steps(ctx, keys);
    var k := FirstFailure(steps);
    if run.result.Failure? {
      if k == |keys| {
        CollectSucceeds(keys, steps, map[]);
        assert false;
      }
      CollectFailure(keys, steps, map[]);
      forall a, j | a in run.log && k < j < |keys|
        ensures a.path != Join(ctx.dataDir, keys[j])
      {
        var i := k;
        if a !in steps[k].log {
          LogsMember(steps[..k], a);
          i :| 0 <= i < k && a in steps[..k][i].log;
        }
        StepsAt(ctx, keys, i);
        LoadFileOutcome(ctx, keys[i]);
        assert keys[i] != keys[j];
        JoinInjective(ctx.dataDir, keys[i], keys[j]);
      }
    }
  }

  /** A registered file that does not exist makes `load_all` raise
      `FileNotFoundError` naming its resolved path; the file is probed but
      never read, and nothing after it is touched. */
  lemma MissingFileReported(ctx: Context)
    ensures var run := Load(ctx);
            var keys := Keys(ctx.registry);
            var k := FirstFailure(Steps(ctx, keys));
            run.result.Failure? && run.result.error.FileNotFound? ==>
              && k < |keys|
              && run.result.error.path == Join(ctx.dataDir, keys[k])
              && run.result.error.path !in ctx.files
              && run.log == Logs(Steps(ctx, keys)[..k]) + [Probe(run.result.error.path)]
  {
    LoadStopsAtFirstFailure(ctx);
    var keys := Keys(ctx.registry);
    var k := FirstFailure(Steps(ctx, keys));
    if k < |keys| {
      LoadFileOutcome(ctx, keys[k]);
    }
  }

  /** A file lacking required columns makes `load_all` raise `_validate`'s
      error: it names the first failing file of the registry, that file was
      read, and the list holds the required columns its parsed header lacks. */
  lemma MissingColumnsReported(ctx: Context)
    ensures var run := Load(ctx);
            var keys := Keys(ctx.registry);
            var k := FirstFailure(Steps(ctx, keys));
            run.result.Failure? && run.result.error.MissingColumns? ==>
              && k < |keys|
              && run.result.error.filename == keys[k]
              && var read := SafeRead(ctx.files, Join(ctx.dataDir, keys[k])).result;
                 && read.Success?
                 && run.result.error.missing == Missing(Get(ctx.registry, keys[k], []), Header(read.value))
                 && run.result.error.missing != []
  {
    LoadStopsAtFirstFailure(ctx);
    var keys := Keys(ctx.registry);
    var k := FirstFailure(Steps(ctx, keys));
    if k < |keys| {
      var path := Join(ctx.dataDir, keys[k]);
      LoadFileOutcome(ctx, keys[k]);
      FallbackOnlyOnDecodeError(ctx.files, path);
      if path in ctx.files && SafeRead(ctx.files, path).result.Success? {
        var raw := SafeRead(ctx.files, path).result.value;
        if !(forall c :: c in Get(ctx.registry, keys[k], []) ==> c in Header(raw)) {
          var c :| c in Get(ctx.registry, keys[k], []) && c !in Header(raw);
          assert c in Missing(Get(ctx.registry, keys[k], []), Header(raw));
        }
      }
    }
  }

  // ---------------------------------------------------------------------------
  // get_df

  /** `datasets[name]` on the outcome of `load_all()`. */
  function Lookup(loaded: Result<map<string, Table>, LoadError>, name: string): Result<Table, LoadError>
  {
    match loaded
    case Failure(e) => Failure(e)
    case Success(datasets) => if name in datasets then Success(datasets[name]) else Failure(KeyMissing(name))
  }

  /** `get_df(name)` returns the validated table of a registered file, raises
      `KeyError` for a name outside the registry, and otherwise passes on the
      error of `load_all`. */
  lemma GetDfOutcome(ctx: Context, name: string)
    ensures var loaded := Load(ctx).result;
            var r := Lookup(loaded, name);
            && (r.Success? <==> loaded.Success? && name in Keys(ctx.registry))
            && (r.Success? ==>
                  && LoadFile(ctx, name).result == Success(r.value)
                  && r.value == NormalizeCustomerId(SafeRead(ctx.files, Join(ctx.dataDir, name)).result.value, ctx.numeric)
                  && forall c | c in Get(ctx.registry, name, []) :: c in Header(r.value))
            && (loaded.Success? && name !in Keys(ctx.registry) ==> r == Failure(KeyMissing(name)))
            && (loaded.Failure? ==> r == Failure(loaded.error))
  {
    LoadSucceedsExactly(ctx);
    LoadFileOutcome(ctx, name);
  }

  // ---------------------------------------------------------------------------
  // The source's control flow

  /** `_read_csv_safely(path)`. */
  method ReadCsvSafely(fs: FileSystem, path: Path) returns (df: Result<Table, LoadError>)
    modifies fs
    ensures df == SafeRead(fs.files, path).result
    ensures fs.accesses == old(fs.accesses) + SafeRead(fs.files, path).log
  {
    var first := fs.ReadCsv(path, Utf8);
    if first.Failure? && first.error.DecodeError? {
      var second := fs.ReadCsv(path, Latin1);
      return FromRead(second);
    }
    return FromRead(first);
  }

  /** The body of the loop in `load_all` for one registry key: probe the
      resolved path, read it, coerce `codice_cliente`, validate. */
  method LoadOne(fs: FileSystem, registry: Registry, dataDir: Path, numeric: string -> Option<int>, filename: string)
    returns (df: Result<Table, LoadError>)
    modifies fs
    ensures df == LoadFile(Context(fs.files, registry, dataDir, numeric), filename).result
    ensures fs.accesses == old(fs.accesses) + LoadFile(Context(fs.files, registry, dataDir, numeric), filename).log
  {
    var path := Join(dataDir, filename);
    var present := fs.Exists(path);
    if !present {
      return Failure(FileNotFound(path));
    }
    var read := ReadCsvSafely(fs, path);
    if read.Failure? {
      return read;
    }
    var table := read.value;
    if CustomerId in Header(table) {
      table := Assign(table, CustomerId, ToNullableInts(Col(table, CustomerId), numeric));
    }
    var check := Validate(table, filename, registry);
    if check.Fail? {
      return Failure(check.error);
    }
    return Success(table);
  }

  /** `load_all()`, with `DATA_DIR` and `REQUIRED` as parameters. */
  method LoadAll(fs: FileSystem, registry: Registry, dataDir: Path, numeric: string -> Option<int>)
    returns (datasets: Result<map<string, Table>, LoadError>)
    modifies fs
    ensures datasets == Load(Context(fs.files, registry, dataDir, numeric)).result
    ensures fs.accesses == old(fs.accesses) + Load(Context(fs.files, registry, dataDir, numeric)).log
  {
    ghost var ctx := Context(fs.files, registry, dataDir, numeric);
    ghost var total := Load(ctx);
    var keys := Keys(registry);
    ghost var steps := Steps(ctx, keys);
    var loaded: map<string, Table> := map[];
    assert keys[0..] == keys && steps[0..] == steps;
    for i := 0 to |keys|
      invariant Collect(keys[i..], steps[i..], loaded).result == total.result
      invariant fs.accesses + Collect(keys[i..], steps[i..], loaded).log == old(fs.accesses) + total.log
    {
      var filename := keys[i];
      CollectStep(keys, steps, i, loaded);
      StepsAt(ctx, keys, i);
      ghost var before := fs.accesses;
      var df := LoadOne(fs, registry, dataDir, numeric, filename);
      if df.Failure? {
        return Failure(df.error);
      }
      AppendAssociates(before, steps[i].log, Collect(keys[i + 1..], steps[i + 1..], loaded[filename := df.value]).log);
      loaded := loaded[filename := df.value];
    }
    return Success(loaded);
  }

  /** `get_df(name)`: `load_all()[name]`, without the cache. */
  method GetDf(fs: FileSystem, registry: Registry, dataDir: Path, numeric: string -> Option<int>, name: string)
    returns (df: Result<Table, LoadError>)
    modifies fs
    ensures df == Lookup(Load(Context(fs.files, registry, dataDir, numeric)).result, name)
    ensures fs.accesses == old(fs.accesses) + Load(Context(fs.files, registry, dataDir, numeric)).log
  {
    var datasets := LoadAll(fs, registry, dataDir, numeric);
    if datasets.Failure? {
      return Failure(datasets.error);
    }
    if name !in datasets.value {
      return Failure(KeyMissing(name));
    }
    return Success(datasets.value[name]);
  }
}
