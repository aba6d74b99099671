/** Rewriting one archive of a ramdisk: kernel modules are replaced, init is renamed and replaced. */
module RamdiskArchive {
  import opened Common

  datatype Record = Record(name: string, ino: uint64, mode: nat, content: bytes)

  /** The command line: which replacements were asked for, and what can be read of them. */
  datatype Options = Options(modulesGiven: bool, moduleFiles: map<string, bytes>, initGiven: bool, initFile: Option<bytes>)

  const MODULE_MODE: nat := 33188
  const INIT_MODE: nat := 33256

  const MODULE_PREFIX := "lib/modules/"
  const MODULE_SUFFIX := ".ko"
  const INIT_NAME := "init"
  const ORIGINAL_INIT := "original-init"

  predicate IsModule(name: string) {
    MODULE_PREFIX <= name && |MODULE_SUFFIX| <= |name| && name[|name| - |MODULE_SUFFIX|..] == MODULE_SUFFIX
  }

  predicate IsReplaced(name: string, opts: Options) {
    opts.modulesGiven && IsModule(name)
  }

  predicate IsInit(name: string, opts: Options) {
    opts.initGiven && name == INIT_NAME
  }

  lemma ReservedNames()
    ensures INIT_NAME != ORIGINAL_INIT && !IsModule(INIT_NAME) && !IsModule(ORIGINAL_INIT)
  {
  }

  function Names(records: seq<Record>): (names: seq<string>)
    ensures |names| == |records| && forall i :: 0 <= i < |records| ==> names[i] == records[i].name
  {
    if records == [] then [] else Names(records[..|records| - 1]) + [records[|records| - 1].name]
  }

  ghost predicate Distinct<T>(s: seq<T>) {
    forall i, j :: 0 <= i < j < |s| ==> s[i] != s[j]
  }

  /** What one pass over the records finds: the ones kept, the highest inode of these, the old modules, an init. */
  datatype Gathered = Gathered(kept: seq<Record>, last: uint64, dropped: seq<string>, hasInit: bool)

  function Renamed(rec: Record, opts: Options): Record {
    if IsInit(rec.name, opts) then rec.(name := ORIGINAL_INIT) else rec
  }

  function GatherOne(g: Gathered, rec: Record, opts: Options): Gathered {
    if IsReplaced(rec.name, opts) then g.(dropped := g.dropped + [rec.name[|MODULE_PREFIX|..]])
    else
      Gathered(g.kept + [Renamed(rec, opts)], if rec.ino > g.last then rec.ino else g.last, g.dropped,
               g.hasInit || IsInit(rec.name, opts))
  }

  function Gather(records: seq<Record>, opts: Options): Gathered {
    if records == [] then Gathered([], 0, [], false)
    else GatherOne(Gather(records[..|records| - 1], opts), records[|records| - 1], opts)
  }

  /** A 64-bit inode counted on. */
  function Ino(last: uint64, n: nat): uint64 {
    (last + n) % TWO_64
  }

  function Modules(order: seq<string>, last: uint64, files: map<string, bytes>): (r: seq<Record>)
    requires forall name :: name in order ==> name in files
    ensures |r| == |order|
    ensures forall i :: 0 <= i < |r| ==> r[i] == Record(MODULE_PREFIX + order[i], Ino(last, i + 1), MODULE_MODE, files[order[i]])
  {
    if order == [] then []
    else
      var n := |order| - 1;
      Modules(order[..n], last, files) + [Record(MODULE_PREFIX + order[n], Ino(last, n + 1), MODULE_MODE, files[order[n]])]
  }

  predicate Readable(g: Gathered, opts: Options) {
    && (forall name :: name in g.dropped ==> name in opts.moduleFiles)
    && (g.hasInit ==> opts.initFile.Some?)
  }

  ghost predicate Permutes<T>(a: seq<T>, b: seq<T>) {
    multiset(a) == multiset(b)
  }

  /** An order in which the old modules may come up. */
  ghost predicate Legal(g: Gathered, opts: Options, order: seq<string>) {
    && Readable(g, opts)
    && Permutes(order, g.dropped)
    && forall name :: name in order ==> name in g.dropped
  }

  /** The new archive when the old modules come up in `order`. */
  ghost function Output(g: Gathered, opts: Options, order: seq<string>): seq<Record>
    requires Legal(g, opts, order)
  {
    g.kept + Modules(order, g.last, opts.moduleFiles)
    + (if g.hasInit then [Record(INIT_NAME, Ino(g.last, |order| + 1), INIT_MODE, opts.initFile.value)] else [])
  }

  // ---------------------------------------------------------------- what a pass finds

  lemma {:induction false} DistinctCounts<T>(s: seq<T>)
    ensures Distinct(s) <==> forall x :: multiset(s)[x] <= 1
  {
    if s != [] {
      var n := |s| - 1;
      assert s == s[..n] + [s[n]];
      DistinctCounts(s[..n]);
      if Distinct(s) {
        assert s[n] !in s[..n];
      } else if Distinct(s[..n]) {
        assert multiset(s)[s[n]] >= 2 by {
          assert s[n] in multiset(s[..n]);
        }
      } else {
        var x :| multiset(s[..n])[x] > 1;
        assert multiset(s)[x] > 1;
      }
    }
  }

  /** How often a pass has met a name, among those kept and those dropped, an init under its old name. */
  ghost function Met(g: Gathered, name: string): nat {
    multiset(Names(g.kept))[name] + multiset(Prefixed(g.dropped))[name] + (if g.hasInit && name == INIT_NAME then 1 else 0)
  }

  ghost function Announced(hasInit: bool, name: string): nat {
    if hasInit && name == ORIGINAL_INIT then 1 else 0
  }

  lemma NamesSnoc(records: seq<Record>, rec: Record)
    ensures Names(records + [rec]) == Names(records) + [rec.name]
  {
  }

  lemma NoNames()
    ensures Names([]) == [] && Prefixed([]) == []
  {
  }

  lemma PrefixedSnoc(names: seq<string>, name: string)
    ensures Prefixed(names + [name]) == Prefixed(names) + [MODULE_PREFIX + name]
  {
  }

  /** The prefix that is trimmed off comes back. */
  lemma ModuleRejoins(name: string)
    requires IsModule(name)
    ensures |MODULE_PREFIX| <= |name| && MODULE_PREFIX + name[|MODULE_PREFIX|..] == name
  {
  }

  lemma GatherOneConserves(g: Gathered, rec: Record, opts: Options, name: string)
    requires g.hasInit ==> !IsInit(rec.name, opts)
    ensures var g' := GatherOne(g, rec, opts);
            Met(g', name) + Announced(g.hasInit, name)
            == Met(g, name) + (if rec.name == name then 1 else 0) + Announced(g'.hasInit, name)
  {
    hide INIT_NAME, ORIGINAL_INIT, MODULE_PREFIX, IsModule, Names, Prefixed;
    var g' := GatherOne(g, rec, opts);
    ReservedNames();
    if IsReplaced(rec.name, opts) {
      ModuleRejoins(rec.name);
      PrefixedSnoc(g.dropped, rec.name[|MODULE_PREFIX|..]);
    } else {
      NamesSnoc(g.kept, Renamed(rec, opts));
    }
  }

  lemma {:induction false} InitIsFound(records: seq<Record>, opts: Options)
    ensures Gather(records, opts).hasInit <==> opts.initGiven && INIT_NAME in Names(records)
  {
    hide INIT_NAME, ORIGINAL_INIT, MODULE_PREFIX, IsModule, Names;
    if records == [] {
      NoNames();
    } else {
      var n := |records| - 1;
      assert records == records[..n] + [records[n]];
      NamesSnoc(records[..n], records[n]);
      ReservedNames();
      InitIsFound(records[..n], opts);
    }
  }

  lemma NewNameIsNotFound(records: seq<Record>, rec: Record, opts: Options)
    requires Distinct(Names(records + [rec])) && IsInit(rec.name, opts)
    ensures !Gather(records, opts).hasInit
  {
  }

  lemma FewerAreDistinct(records: seq<Record>, rec: Record)
    requires Distinct(Names(records + [rec]))
    ensures Distinct(Names(records))
  {
  }

  /** Names of dropped modules and of kept records are those that were there, init under its new name. */
  lemma {:induction false} GatherConserves(records: seq<Record>, opts: Options, name: string)
    requires Distinct(Names(records))
    ensures var g := Gather(records, opts); Met(g, name) == multiset(Names(records))[name] + Announced(g.hasInit, name)
  {
    hide INIT_NAME, ORIGINAL_INIT, Names, Prefixed, GatherOne, Distinct;
    if records == [] {
      NoNames();
    } else {
      hide Met, Announced;
      var n := |records| - 1;
      var rest, rec := records[..n], records[n];
      assert records == rest + [rec];
      NamesSnoc(rest, rec);
      FewerAreDistinct(rest, rec);
      if IsInit(rec.name, opts) {
        NewNameIsNotFound(rest, rec, opts);
      }
      GatherConserves(rest, opts, name);
      GatherOneConserves(Gather(rest, opts), rec, opts, name);
    }
  }

  function Prefixed(names: seq<string>): (r: seq<string>)
    ensures |r| == |names| && forall i :: 0 <= i < |names| ==> r[i] == MODULE_PREFIX + names[i]
  {
    if names == [] then [] else Prefixed(names[..|names| - 1]) + [MODULE_PREFIX + names[|names| - 1]]
  }

  // ---------------------------------------------------------------- the new archive

  lemma {:induction false} PrefixedCounts(names: seq<string>, x: string)
    ensures multiset(Prefixed(names))[x] == if MODULE_PREFIX <= x then multiset(names)[x[|MODULE_PREFIX|..]] else 0
  {
    hide MODULE_PREFIX, Prefixed;
    if names == [] {
      NoNames();
    } else {
      var n := |names| - 1;
      assert names == names[..n] + [names[n]];
      PrefixedSnoc(names[..n], names[n]);
      PrefixedCounts(names[..n], x);
      assert MODULE_PREFIX <= x ==> x == MODULE_PREFIX + x[|MODULE_PREFIX|..];
    }
  }

  lemma NamesAppend(a: seq<Record>, b: seq<Record>)
    ensures Names(a + b) == Names(a) + Names(b)
  {
  }

  lemma OutputNames(g: Gathered, opts: Options, order: seq<string>)
    requires Legal(g, opts, order)
    ensures Names(Output(g, opts, order)) == Names(g.kept) + Prefixed(order) + (if g.hasInit then [INIT_NAME] else [])
  {
    hide MODULE_PREFIX, INIT_NAME, Names, Prefixed, Modules, Permutes;
    var modules := Modules(order, g.last, opts.moduleFiles);
    assert Names(modules) == Prefixed(order);
    NamesAppend(g.kept, modules);
  }

  lemma OutputCounts(g: Gathered, opts: Options, order: seq<string>, name: string)
    requires Legal(g, opts, order)
    ensures multiset(Names(Output(g, opts, order)))[name] == Met(g, name)
  {
    OutputNames(g, opts, order);
    PrefixedCounts(order, name);
    PrefixedCounts(g.dropped, name);
    hide INIT_NAME, MODULE_PREFIX, Names, Prefixed, Output, Readable;
  }

  /** Whatever the order: the names are those of the old archive, and original-init when init was replaced. */
  lemma NamesAreConserved(records: seq<Record>, opts: Options, order: seq<string>)
    requires Distinct(Names(records)) && Legal(Gather(records, opts), opts, order)
    ensures var hasInit := opts.initGiven && INIT_NAME in Names(records);
            multiset(Names(Output(Gather(records, opts), opts, order)))
            == multiset(Names(records)) + (if hasInit then multiset{ORIGINAL_INIT} else multiset{})
  {
    var g := Gather(records, opts);
    InitIsFound(records, opts);
    hide INIT_NAME, ORIGINAL_INIT, Names, Output, Gather, Distinct, Legal, Met;
    var names, was := multiset(Names(Output(g, opts, order))), multiset(Names(records));
    var more := if g.hasInit then multiset{ORIGINAL_INIT} else multiset{};
    forall name: string
      ensures names[name] == (was + more)[name]
    {
      GatherConserves(records, opts, name);
      OutputCounts(g, opts, order, name);
    }
  }

  /** The new names are distinct exactly when no original-init was there while init is replaced. */
  lemma NewNamesDistinctIff(records: seq<Record>, opts: Options, order: seq<string>)
    requires Distinct(Names(records)) && Legal(Gather(records, opts), opts, order)
    ensures Distinct(Names(Output(Gather(records, opts), opts, order)))
            <==> !(opts.initGiven && INIT_NAME in Names(records) && ORIGINAL_INIT in Names(records))
  {
    hide INIT_NAME, ORIGINAL_INIT, Names, Output, Gather, Distinct, Legal;
    NamesAreConserved(records, opts, order);
    DistinctPlusOneIff(Names(records), Names(Output(Gather(records, opts), opts, order)), ORIGINAL_INIT,
                       opts.initGiven && INIT_NAME in Names(records));
  }

  lemma DistinctPlusOneIff<T>(was: seq<T>, now: seq<T>, x: T, more: bool)
    requires Distinct(was) && multiset(now) == multiset(was) + (if more then multiset{x} else multiset{})
    ensures Distinct(now) <==> !(more && x in was)
  {
    DistinctCounts(was);
    DistinctCounts(now);
    hide Distinct;
    assert x in was <==> multiset(was)[x] > 0;
    assert forall y :: multiset(now)[y] == multiset(was)[y] + (if more && y == x then 1 else 0);
  }

  /** So an archive whose init was replaced once cannot be patched again. */
  lemma PatchingTwiceCollides(records: seq<Record>, opts: Options, order: seq<string>, order': seq<string>)
    requires Distinct(Names(records)) && Legal(Gather(records, opts), opts, order)
    requires opts.initGiven && INIT_NAME in Names(records) && ORIGINAL_INIT !in Names(records)
    requires var out := Output(Gather(records, opts), opts, order); Legal(Gather(out, opts), opts, order')
    ensures var out := Output(Gather(records, opts), opts, order);
            Distinct(Names(out)) && !Distinct(Names(Output(Gather(out, opts), opts, order')))
  {
    var out := Output(Gather(records, opts), opts, order);
    NewNamesDistinctIff(records, opts, order);
    NamesAreConserved(records, opts, order);
    hide INIT_NAME, ORIGINAL_INIT, Names, Output, Gather, Distinct, Legal;
    assert multiset(Names(out))[INIT_NAME] > 0 && multiset(Names(out))[ORIGINAL_INIT] > 0;
    NewNamesDistinctIff(out, opts, order');
  }

  /** A module is a file anywhere below lib/modules whose name ends in .ko. */
  lemma IsModuleIff(name: string)
    ensures IsModule(name) <==> exists middle: string :: name == "lib/modules/" + middle + ".ko"
  {
    if IsModule(name) {
      assert name[11] == '/' && name[|name| - 3] == '.' && name[|name| - 2] == 'k' && name[|name| - 1] == 'o';
      assert |name| >= 15;
      var middle := name[12..|name| - 3];
      assert name == "lib/modules/" + middle + ".ko";
    }
  }

  lemma {:induction false} KeptAre(records: seq<Record>, opts: Options) returns (at: seq<int>)
    ensures var kept := Gather(records, opts).kept;
            && |at| == |kept|
            && (forall i :: 0 <= i < |at| ==> 0 <= at[i] < |records| && kept[i] == Renamed(records[at[i]], opts))
            && (forall i, j :: 0 <= i < j < |at| ==> at[i] < at[j])
    ensures forall j :: 0 <= j < |records| ==> (j in at <==> !IsReplaced(records[j].name, opts))
  {
    at := [];
    if records != [] {
      var n := |records| - 1;
      at := KeptAre(records[..n], opts);
      hide IsReplaced, Renamed;
      if !IsReplaced(records[n].name, opts) {
        at := at + [n];
      }
    }
  }

  /**
   Exactly the records that are no replaced modules are kept, in order and as they are: content, inode and
   mode, and the name too unless it is init's and init is replaced.
   */
  lemma KeptAreTheOthers(records: seq<Record>, opts: Options) returns (at: seq<int>)
    ensures var kept := Gather(records, opts).kept;
            && |at| == |kept|
            && (forall i :: 0 <= i < |at| ==>
                  && 0 <= at[i] < |records|
                  && kept[i].content == records[at[i]].content && kept[i].ino == records[at[i]].ino
                  && kept[i].mode == records[at[i]].mode
                  && kept[i].name == if opts.initGiven && records[at[i]].name == "init" then "original-init" else records[at[i]].name)
            && (forall i, j :: 0 <= i < j < |at| ==> at[i] < at[j])
    ensures forall j :: 0 <= j < |records| ==> (j in at <==> !(opts.modulesGiven && IsModule(records[j].name)))
  {
    hide Gather, IsModule;
    at := KeptAre(records, opts);
  }

  /** Behind them come the new modules as ordinary files, then init as an executable one. */
  lemma NewFilesAre(g: Gathered, opts: Options, order: seq<string>, i: nat)
    requires Legal(g, opts, order) && |g.kept| <= i < |Output(g, opts, order)|
    ensures var rec, n := Output(g, opts, order)[i], i - |g.kept|;
            if n < |order| then
              rec.name == MODULE_PREFIX + order[n] && rec.mode == 33188 && rec.content == opts.moduleFiles[order[n]]
            else
              n == |order| && g.hasInit && rec.name == INIT_NAME && rec.mode == 33256 && Some(rec.content) == opts.initFile
  {
    hide MODULE_PREFIX, INIT_NAME, Modules, Permutes;
  }

  lemma {:induction false} KeptAreOldFiles(records: seq<Record>, opts: Options, k: nat)
    requires k < |Gather(records, opts).kept|
    ensures var name := Gather(records, opts).kept[k].name; !IsReplaced(name, opts) && !IsInit(name, opts)
  {
    hide INIT_NAME, ORIGINAL_INIT, MODULE_PREFIX, IsModule;
    var rest, rec := records[..|records| - 1], records[|records| - 1];
    ReservedNames();
    if k < |Gather(rest, opts).kept| {
      KeptAreOldFiles(rest, opts, k);
    }
  }

  lemma {:induction false} DroppedAreModules(records: seq<Record>, opts: Options, name: string)
    requires name in Gather(records, opts).dropped
    ensures IsModule(MODULE_PREFIX + name) && opts.modulesGiven
  {
    hide INIT_NAME, ORIGINAL_INIT, MODULE_PREFIX, IsModule;
    var rest, rec := records[..|records| - 1], records[|records| - 1];
    if name in Gather(rest, opts).dropped {
      DroppedAreModules(rest, opts, name);
    } else {
      ModuleRejoins(rec.name);
    }
  }

  /** Under the name of an old module there is the new file. */
  lemma ModulesAreNew(records: seq<Record>, opts: Options, order: seq<string>, i: nat, name: string)
    requires var g := Gather(records, opts); Legal(g, opts, order) && i < |Output(g, opts, order)|
    requires var g := Gather(records, opts); name in g.dropped && Output(g, opts, order)[i].name == MODULE_PREFIX + name
    ensures Output(Gather(records, opts), opts, order)[i].content == opts.moduleFiles[name]
  {
    var g := Gather(records, opts);
    var rec := Output(g, opts, order)[i];
    DroppedAreModules(records, opts, name);
    ReservedNames();
    hide INIT_NAME, ORIGINAL_INIT, MODULE_PREFIX, IsModule, Gather, Modules, Names, Permutes;
    if i < |g.kept| {
      KeptAreOldFiles(records, opts, i);
      assert false;
    } else {
      assert i < |g.kept| + |order|;
      var other := order[i - |g.kept|];
      assert other == (MODULE_PREFIX + other)[|MODULE_PREFIX|..] == (MODULE_PREFIX + name)[|MODULE_PREFIX|..] == name;
    }
  }

  /** Under init there is the new init. */
  lemma InitIsNew(records: seq<Record>, opts: Options, order: seq<string>, i: nat)
    requires var g := Gather(records, opts); Legal(g, opts, order) && i < |Output(g, opts, order)|
    requires var g := Gather(records, opts); g.hasInit && Output(g, opts, order)[i].name == INIT_NAME
    ensures Some(Output(Gather(records, opts), opts, order)[i].content) == opts.initFile
  {
    var g := Gather(records, opts);
    var rec := Output(g, opts, order)[i];
    InitIsFound(records, opts);
    ReservedNames();
    hide INIT_NAME, ORIGINAL_INIT, MODULE_PREFIX, IsModule, Gather, Modules, Names, Permutes;
    if i < |g.kept| {
      KeptAreOldFiles(records, opts, i);
      assert false;
    } else if i < |g.kept| + |order| {
      var name := order[i - |g.kept|];
      DroppedAreModules(records, opts, name);
      assert false;
    }
  }

  // ---------------------------------------------------------------- inodes

  lemma {:induction false} LastIsHighest(records: seq<Record>, opts: Options)
    ensures var g := Gather(records, opts);
            && (forall k :: 0 <= k < |g.kept| ==> g.kept[k].ino <= g.last)
            && (g.last > 0 ==> exists k :: 0 <= k < |g.kept| && g.kept[k].ino == g.last)
  {
    hide INIT_NAME, IsModule;
    if records != [] {
      var g := Gather(records[..|records| - 1], opts);
      LastIsHighest(records[..|records| - 1], opts);
      var g' := Gather(records, opts);
      assert forall k :: 0 <= k < |g.kept| ==> g'.kept[k] == g.kept[k];
      if g'.last > g.last {
        assert g'.kept[|g.kept|].ino == g'.last;
      }
    }
  }

  lemma NewInodes(g: Gathered, opts: Options, order: seq<string>, i: nat)
    requires Legal(g, opts, order)
    requires |g.kept| <= i < |Output(g, opts, order)|
    ensures Output(g, opts, order)[i].ino == Ino(g.last, i - |g.kept| + 1)
  {
    hide INIT_NAME, MODULE_PREFIX, Modules, Permutes, Ino;
  }

  lemma InoIsInjective(last: uint64, a: nat, b: nat)
    requires a < b < a + TWO_64
    ensures Ino(last, a) != Ino(last, b)
  {
  }

  /** New records never share an inode: there are fewer of them than numbers. */
  lemma NewInodesAreDistinct(g: Gathered, opts: Options, order: seq<string>, i: nat, j: nat)
    requires Legal(g, opts, order) && |order| < TWO_64
    requires |g.kept| <= i < j < |Output(g, opts, order)|
    ensures Output(g, opts, order)[i].ino != Output(g, opts, order)[j].ino
  {
    hide INIT_NAME, MODULE_PREFIX, Modules, Permutes, Ino;
    assert |Output(g, opts, order)| <= |g.kept| + |order| + 1;
    NewInodes(g, opts, order, i);
    NewInodes(g, opts, order, j);
    InoIsInjective(g.last, i - |g.kept| + 1, j - |g.kept| + 1);
  }

  lemma InoFits(last: uint64, n: nat)
    requires last + n < TWO_64
    ensures Ino(last, n) == last + n
  {
  }

  lemma InoWraps(last: uint64)
    ensures Ino(last, TWO_64 - last) == 0
  {
  }

  /** The m first inodes are at most `last`, the others count on from it. */
  ghost predicate CountsOn(out: seq<Record>, m: nat, last: uint64) {
    && m <= |out|
    && (forall k :: 0 <= k < m ==> out[k].ino <= last)
    && (last > 0 ==> exists k :: 0 <= k < m && out[k].ino == last)
    && (forall i :: m <= i < |out| ==> out[i].ino == Ino(last, i - m + 1))
  }

  lemma AboveIff(out: seq<Record>, m: nat, last: uint64)
    requires CountsOn(out, m, last) && |out| - m < TWO_64
    ensures (forall i, k :: m <= i < |out| && 0 <= k < m ==> out[i].ino > out[k].ino) <==> last + (|out| - m) < TWO_64
  {
    hide Ino;
    if last + (|out| - m) < TWO_64 {
      forall i, k | m <= i < |out| && 0 <= k < m
        ensures out[i].ino > out[k].ino
      {
        InoFits(last, i - m + 1);
      }
    } else {
      var k :| 0 <= k < m && out[k].ino == last;
      InoWraps(last);
      assert out[m + (TWO_64 - last) - 1].ino == 0;
    }
  }

  /** They are above every kept inode exactly when the highest of these leaves room for them. */
  lemma NewInodesAreAboveIff(records: seq<Record>, opts: Options, order: seq<string>)
    requires Legal(Gather(records, opts), opts, order) && |order| + 1 < TWO_64
    ensures var g := Gather(records, opts);
            var out := Output(g, opts, order);
            (forall i, k :: |g.kept| <= i < |out| && 0 <= k < |g.kept| ==> out[i].ino > out[k].ino)
            <==> g.last + (|out| - |g.kept|) < TWO_64
  {
    hide *;
    var g := Gather(records, opts);
    LastIsHighest(records, opts);
    OutputCountsOn(g, opts, order);
    AboveIff(Output(g, opts, order), |g.kept|, g.last);
  }

  lemma OutputCountsOn(g: Gathered, opts: Options, order: seq<string>)
    requires Legal(g, opts, order)
    requires forall k :: 0 <= k < |g.kept| ==> g.kept[k].ino <= g.last
    requires g.last > 0 ==> exists k :: 0 <= k < |g.kept| && g.kept[k].ino == g.last
    ensures CountsOn(Output(g, opts, order), |g.kept|, g.last)
    ensures |Output(g, opts, order)| <= |g.kept| + |order| + 1
  {
    hide INIT_NAME, MODULE_PREFIX, Modules, Legal, Ino;
    var out := Output(g, opts, order);
    forall i | |g.kept| <= i < |out|
      ensures out[i].ino == Ino(g.last, i - |g.kept| + 1)
    {
      NewInodes(g, opts, order, i);
    }
    if g.last > 0 {
      var k :| 0 <= k < |g.kept| && g.kept[k].ino == g.last;
      assert out[k].ino == g.last;
    }
  }
}

/** processSegment: one pass over the records, then the old modules in whatever order the map gives them. */
module RamdiskPatcher {
  import opened Common
  import opened RamdiskArchive

  ghost predicate SetOf(s: set<string>, names: seq<string>) {
    forall x :: x in s <==> x in names
  }

  lemma {:induction false} SetOfDistinct(s: set<string>, names: seq<string>)
    requires SetOf(s, names) && Distinct(names)
    ensures multiset(s) == multiset(names)
  {
    DistinctCounts(names);
    forall x: string
      ensures multiset(s)[x] == multiset(names)[x]
    {
      assert x in multiset(names) <==> x in names;
    }
  }

  /** Distinct file names leave distinct module names behind their prefix. */
  lemma DroppedAreDistinct(records: seq<Record>, opts: Options)
    requires Distinct(Names(records))
    ensures Distinct(Gather(records, opts).dropped)
  {
    var dropped := Gather(records, opts).dropped;
    forall name: string
      ensures multiset(dropped)[name] <= 1
    {
      DroppedOnce(records, opts, name);
    }
    DistinctCounts(dropped);
  }

  lemma {:induction false} DroppedOnce(records: seq<Record>, opts: Options, name: string)
    ensures multiset(Gather(records, opts).dropped)[name] <= multiset(Names(records))[MODULE_PREFIX + name]
    ensures Distinct(Names(records)) ==> multiset(Gather(records, opts).dropped)[name] <= 1
  {
    DistinctCounts(Names(records));
    hide INIT_NAME, ORIGINAL_INIT, MODULE_PREFIX, IsModule, Names, Distinct;
    if records == [] {
      NoNames();
    } else {
      var n := |records| - 1;
      assert records == records[..n] + [records[n]];
      NamesSnoc(records[..n], records[n]);
      DroppedOnce(records[..n], opts, name);
      if IsReplaced(records[n].name, opts) {
        ModuleRejoins(records[n].name);
      }
    }
  }

  method GatherAll(records: seq<Record>, opts: Options)
    returns (kept: seq<Record>, lastIno: uint64, oldModules: set<string>, hasModules: bool, hasInit: bool)
    ensures var g := Gather(records, opts);
            && kept == g.kept && lastIno == g.last && hasInit == g.hasInit
            && SetOf(oldModules, g.dropped) && (hasModules <==> g.dropped != [])
  {
    hide INIT_NAME, ORIGINAL_INIT, MODULE_PREFIX, IsModule;
    kept, lastIno, oldModules, hasModules, hasInit := [], 0, {}, false, false;
    for i := 0 to |records|
      invariant kept == Gather(records[..i], opts).kept
      invariant lastIno == Gather(records[..i], opts).last
      invariant hasInit == Gather(records[..i], opts).hasInit
      invariant SetOf(oldModules, Gather(records[..i], opts).dropped)
      invariant hasModules <==> Gather(records[..i], opts).dropped != []
    {
      assert records[..i + 1][..i] == records[..i];
      var rec := records[i];
      if opts.modulesGiven && IsModule(rec.name) {
        ModuleRejoins(rec.name);
        hasModules := true;
        oldModules := oldModules + {rec.name[|MODULE_PREFIX|..]};
        continue;
      }
      if opts.initGiven && rec.name == INIT_NAME {
        hasInit := true;
        rec := rec.(name := ORIGINAL_INIT);
      }
      if rec.ino > lastIno {
        lastIno := rec.ino;
      }
      kept := kept + [rec];
    }
    assert records[..|records|] == records;
  }

  lemma InoCountsOn(last: uint64, n: nat)
    ensures Ino(last, 0) == last && (Ino(last, n) + 1) % TWO_64 == Ino(last, n + 1)
  {
  }

  lemma NoModules(last: uint64, files: map<string, bytes>)
    ensures Modules([], last, files) == []
  {
  }

  lemma ModulesSnoc(order: seq<string>, name: string, last: uint64, files: map<string, bytes>)
    requires name in files && forall other :: other in order ==> other in files
    ensures Modules(order + [name], last, files)
            == Modules(order, last, files)
               + [Record(MODULE_PREFIX + name, Ino(last, |order| + 1), MODULE_MODE, files[name])]
  {
  }

  lemma SameMembers<T>(a: seq<T>, b: seq<T>)
    requires Permutes(a, b)
    ensures forall x :: x in a <==> x in b
  {
    assert forall x :: x in multiset(a) <==> x in a;
    assert forall x :: x in multiset(b) <==> x in b;
  }

  /** `order` has come up, `left` is still to come. */
  ghost predicate Progress<T>(order: seq<T>, left: set<T>, all: set<T>) {
    multiset(order) + multiset(left) == multiset(all)
  }

  lemma TakeOne<T>(order: seq<T>, left: set<T>, all: set<T>, x: T)
    requires Progress(order, left, all) && x in left
    ensures Progress(order + [x], left - {x}, all) && x in all
  {
    assert multiset(left) == multiset(left - {x}) + multiset{x};
    assert x in multiset(all);
  }

  lemma ProgressEnds<T>(order: seq<T>, all: set<T>)
    ensures Progress([], all, all)
    ensures Progress(order, {}, all) ==> multiset(order) == multiset(all)
  {
  }

  /** The new modules, one for each old one, in an order nobody chose. */
  method ReplaceModules(oldModules: set<string>, files: map<string, bytes>, last: uint64)
    returns (lastIno: uint64, written: Option<seq<Record>>, ghost order: seq<string>)
    ensures written.Some? <==> forall name :: name in oldModules ==> name in files
    ensures written.Some? ==>
              && multiset(order) == multiset(oldModules)
              && (forall name :: name in order ==> name in files)
              && written.value == Modules(order, last, files)
              && lastIno == Ino(last, |order|)
  {
    hide *;
    var left := oldModules;
    var records: seq<Record> := [];
    lastIno, order := last, [];
    InoCountsOn(last, 0);
    NoModules(last, files);
    ProgressEnds(order, oldModules);
    while left != {}
      invariant Progress(order, left, oldModules)
      invariant forall name :: name in oldModules ==> name in left || name in files
      invariant forall name :: name in order ==> name in files
      invariant records == Modules(order, last, files)
      invariant lastIno == Ino(last, |order|)
    {
      var name :| name in left;
      TakeOne(order, left, oldModules, name);
      if name !in files {
        return lastIno, None, order;
      }
      InoCountsOn(last, |order|);
      ModulesSnoc(order, name, last, files);
      lastIno := (lastIno + 1) % TWO_64;
      records := records + [Record(MODULE_PREFIX + name, lastIno, MODULE_MODE, files[name])];
      order := order + [name];
      left := left - {name};
    }
    ProgressEnds(order, oldModules);
    written := Some(records);
  }

  /** One segment. None when a replacement cannot be read. */
  method ProcessSegment(records: seq<Record>, opts: Options) returns (r: Option<seq<Record>>)
    requires Distinct(Names(records))
    ensures r.Some? <==> Readable(Gather(records, opts), opts)
    ensures r.Some? ==> exists order :: Legal(Gather(records, opts), opts, order) && r.value == Output(Gather(records, opts), opts, order)
  {
    hide INIT_NAME, MODULE_PREFIX, ORIGINAL_INIT, IsModule, Names, Gather, Modules, Ino;
    ghost var g := Gather(records, opts);
    var kept, lastIno, oldModules, hasModules, hasInit := GatherAll(records, opts);
    DroppedAreDistinct(records, opts);
    SetOfDistinct(oldModules, g.dropped);
    var written: seq<Record> := [];
    ghost var order: seq<string> := [];
    if hasModules {
      var modules;
      lastIno, modules, order := ReplaceModules(oldModules, opts.moduleFiles, lastIno);
      if modules == None {
        return None;
      }
      written := modules.value;
    }
    var out := kept + written;
    if hasInit {
      if opts.initFile == None {
        return None;
      }
      InoCountsOn(g.last, |order|);
      lastIno := (lastIno + 1) % TWO_64;
      out := out + [Record(INIT_NAME, lastIno, INIT_MODE, opts.initFile.value)];
    }
    SameMembers(order, g.dropped);
    assert out == Output(g, opts, order);
    r := Some(out);
  }
}

/** The image: the segments of a ramdisk, each rewritten, each padded up to the next multiple of 256. */
module RamdiskImage {
  import opened Common
  import opened RamdiskArchive
  import RamdiskPatcher

  const BLOCK := 256

  function Zeros(n: nat): (z: bytes)
    ensures |z| == n && forall i :: 0 <= i < n ==> z[i] == 0
  {
    if n == 0 then [] else Zeros(n - 1) + [0]
  }

  ghost predicate AllZero(s: bytes) {
    forall i :: 0 <= i < |s| ==> s[i] == 0
  }

  method IsAllZero(s: bytes) returns (zero: bool)
    ensures zero <==> AllZero(s)
  {
    for i := 0 to |s|
      invariant AllZero(s[..i])
    {
      if s[i] != 0 {
        return false;
      }
      assert s[..i + 1] == s[..i] + [s[i]];
    }
    assert s[..|s|] == s;
    zero := true;
  }

  /** Where a pattern first stands. */
  ghost predicate FirstAt(s: bytes, pattern: bytes, i: nat) {
    && i <= |s| && pattern <= s[i..]
    && forall j :: 0 <= j < i ==> !(pattern <= s[j..])
  }

  ghost predicate Nowhere(s: bytes, pattern: bytes) {
    forall j :: 0 <= j <= |s| ==> !(pattern <= s[j..])
  }

  method Index(s: bytes, pattern: bytes) returns (at: int)
    ensures at == -1 ==> Nowhere(s, pattern)
    ensures at != -1 ==> 0 <= at && FirstAt(s, pattern, at)
  {
    for i := 0 to |s| + 1
      invariant forall j :: 0 <= j < i ==> !(pattern <= s[j..])
    {
      if pattern <= s[i..] {
        return i;
      }
    }
    at := -1;
  }

  function Padding(length: nat): nat {
    BLOCK - length % BLOCK
  }

  /** The image made of these rewritten segments. */
  function Layout(pieces: seq<bytes>): bytes {
    if pieces == [] then []
    else
      var before := Layout(pieces[..|pieces| - 1]) + pieces[|pieces| - 1];
      before + Zeros(Padding(|before|))
  }

  lemma LayoutIsAligned(pieces: seq<bytes>)
    ensures |Layout(pieces)| % BLOCK == 0
  {
  }

  lemma {:induction false} LayoutGrows(pieces: seq<bytes>, k: nat)
    requires k <= |pieces|
    ensures Layout(pieces[..k]) <= Layout(pieces)
  {
    if k == |pieces| {
      assert pieces[..k] == pieces;
    } else {
      var rest := pieces[..|pieces| - 1];
      assert rest[..k] == pieces[..k];
      LayoutGrows(rest, k);
    }
  }

  /**
   Every segment stands whole in the image, starts at a multiple of 256 and is followed by 1 to 256 zeros
   up to the next segment or the end, which is a multiple of 256 too.
   */
  lemma EverySegmentIsPlaced(pieces: seq<bytes>, k: nat) returns (start: nat, end: nat)
    requires k < |pieces|
    ensures start == |Layout(pieces[..k])| && end == |Layout(pieces[..k + 1])|
    ensures start % 256 == 0 && end % 256 == 0 && |Layout(pieces)| % 256 == 0
    ensures start + |pieces[k]| < end <= start + |pieces[k]| + 256 && end <= |Layout(pieces)|
    ensures Layout(pieces)[start..start + |pieces[k]|] == pieces[k]
    ensures AllZero(Layout(pieces)[start + |pieces[k]|..end])
  {
    start, end := |Layout(pieces[..k])|, |Layout(pieces[..k + 1])|;
    LayoutIsAligned(pieces);
    LayoutIsAligned(pieces[..k]);
    LayoutIsAligned(pieces[..k + 1]);
    LayoutGrows(pieces, k + 1);
    assert pieces[..k + 1][..k] == pieces[..k];
    var before := Layout(pieces[..k]) + pieces[k];
    assert Layout(pieces[..k + 1]) == before + Zeros(Padding(|before|));
    hide Layout, Zeros;
    var image, part := Layout(pieces), Layout(pieces[..k + 1]);
    assert image[..end] == part;
    assert image[start..start + |pieces[k]|] == part[start..start + |pieces[k]|];
    assert image[start + |pieces[k]|..end] == part[start + |pieces[k]|..end];
  }

  /** The archive library as it is found, and the command line. */
  datatype Tool = Tool(magic: bytes, decode: bytes -> Option<seq<Record>>, encode: seq<Record> -> bytes, opts: Options)

  /** A parsed archive names its files once. */
  ghost predicate ParsesArchives(tool: Tool) {
    forall body :: tool.decode(body).Some? ==> Distinct(Names(tool.decode(body).value))
  }

  /** What rewriting a segment body may give, for some order of the module map. */
  ghost predicate Rewrites(tool: Tool, body: bytes, piece: bytes) {
    tool.decode(body).Some? &&
    var g := Gather(tool.decode(body).value, tool.opts);
    exists order :: Legal(g, tool.opts, order) && piece == tool.encode(Output(g, tool.opts, order))
  }

  /** A body that is no archive, or whose replacements cannot be read. */
  predicate Fails(tool: Tool, body: bytes) {
    tool.decode(body).None? || !Readable(Gather(tool.decode(body).value, tool.opts), tool.opts)
  }

  ghost predicate AcceptedOne(tool: Tool, segment: bytes, piece: bytes) {
    !AllZero(segment) && exists at: nat :: FirstAt(segment, tool.magic, at) && Rewrites(tool, segment[at..], piece)
  }

  ghost predicate Accepted(tool: Tool, segments: seq<bytes>, pieces: seq<bytes>) {
    |pieces| <= |segments| && forall n :: 0 <= n < |pieces| ==> AcceptedOne(tool, segments[n], pieces[n])
  }

  /** A segment that cannot be processed: it has no header, or its rewriting fails. */
  ghost predicate Refused(tool: Tool, segment: bytes) {
    && !AllZero(segment)
    && (Nowhere(segment, tool.magic) || exists at: nat :: FirstAt(segment, tool.magic, at) && Fails(tool, segment[at..]))
  }

  /** Every segment before this one is accepted, and this one, if there is one, ends the image with its zeros. */
  ghost predicate Written(tool: Tool, segments: seq<bytes>, pieces: seq<bytes>) {
    Accepted(tool, segments, pieces) && (|pieces| == |segments| || AllZero(segments[|pieces|]))
  }

  ghost predicate GivenUp(tool: Tool, segments: seq<bytes>, pieces: seq<bytes>) {
    Accepted(tool, segments, pieces) && |pieces| < |segments| && Refused(tool, segments[|pieces|])
  }

  lemma NeverBoth(tool: Tool, segment: bytes, piece: bytes)
    requires AcceptedOne(tool, segment, piece)
    ensures !Refused(tool, segment)
  {
    var at: nat :| FirstAt(segment, tool.magic, at) && Rewrites(tool, segment[at..], piece);
    forall other: nat | FirstAt(segment, tool.magic, other)
      ensures other == at
    {
    }
  }

  /** The zeros in front of an archive, which the padding put there, are skipped and nothing else. */
  lemma PaddingIsSkipped(tool: Tool, pad: bytes, body: bytes, piece: bytes)
    requires AllZero(pad) && tool.magic != [] && tool.magic[0] != 0 && tool.magic <= body
    ensures AcceptedOne(tool, pad + body, piece) <==> Rewrites(tool, body, piece)
    ensures Refused(tool, pad + body) <==> Fails(tool, body)
  {
    hide Rewrites, Fails;
    var segment := pad + body;
    forall j | 0 <= j < |pad|
      ensures !(tool.magic <= segment[j..])
    {
      assert segment[j..][0] == 0;
    }
    assert segment[|pad|..] == body;
    assert FirstAt(segment, tool.magic, |pad|);
    assert segment[|pad|] == tool.magic[0];
    forall other: nat | FirstAt(segment, tool.magic, other)
      ensures other == |pad|
    {
    }
  }

  /** An image that is written excludes giving up, and every image of these segments has as many pieces. */
  lemma OneOutcome(tool: Tool, segments: seq<bytes>, a: seq<bytes>, b: seq<bytes>)
    requires Written(tool, segments, a)
    ensures Written(tool, segments, b) ==> |a| == |b|
    ensures !GivenUp(tool, segments, b)
  {
    hide AllZero;
    forall n | 0 <= n < |a|
      ensures !AllZero(segments[n]) && !Refused(tool, segments[n])
    {
      assert AcceptedOne(tool, segments[n], a[n]);
      NeverBoth(tool, segments[n], a[n]);
    }
    if Accepted(tool, segments, b) {
      forall n | 0 <= n < |b|
        ensures !AllZero(segments[n])
      {
        assert AcceptedOne(tool, segments[n], b[n]);
      }
    }
  }

  /** The segment loop. Nothing is written when a segment is refused. */
  method Patch(tool: Tool, segments: seq<bytes>) returns (image: Option<bytes>)
    requires ParsesArchives(tool)
    ensures image.Some? ==> exists pieces: seq<bytes> :: Written(tool, segments, pieces) && image.value == Layout(pieces)
    ensures image.None? ==> exists pieces: seq<bytes> :: GivenUp(tool, segments, pieces)
  {
    hide AllZero, FirstAt, Nowhere, Zeros, Gather, Legal, Readable, Names;
    var output: bytes := [];
    ghost var pieces: seq<bytes> := [];
    for n := 0 to |segments|
      invariant |pieces| == n && Accepted(tool, segments, pieces)
      invariant output == Layout(pieces)
    {
      var zero := IsAllZero(segments[n]);
      if zero {
        break;
      }
      var at := Index(segments[n], tool.magic);
      if at == -1 {
        assert GivenUp(tool, segments, pieces);
        return None;
      }
      assert FirstAt(segments[n], tool.magic, at);
      AtIsInside(segments[n], tool.magic, at);
      var piece := Rewrite(tool, segments[n][at..]);
      if piece == None {
        assert GivenUp(tool, segments, pieces);
        return None;
      }
      assert (pieces + [piece.value])[..n] == pieces;
      output := output + piece.value;
      output := PadOut(output);
      pieces := pieces + [piece.value];
    }
    assert Written(tool, segments, pieces);
    image := Some(output);
  }

  /** One segment body: parsed, processed and put together again. */
  method Rewrite(tool: Tool, body: bytes) returns (piece: Option<bytes>)
    requires ParsesArchives(tool)
    ensures piece.Some? ==> Rewrites(tool, body, piece.value)
    ensures piece.None? ==> Fails(tool, body)
  {
    hide Gather, Legal, Readable, Names, Distinct;
    var records := tool.decode(body);
    if records.None? {
      return None;
    }
    var out := RamdiskPatcher.ProcessSegment(records.value, tool.opts);
    if out.None? {
      return None;
    }
    piece := Some(tool.encode(out.value));
  }

  lemma AtIsInside(s: bytes, magic: bytes, at: nat)
    requires FirstAt(s, magic, at)
    ensures at <= |s|
  {
  }

  method PadOut(output: bytes) returns (padded: bytes)
    ensures padded == output + Zeros(Padding(|output|))
  {
    padded := output;
    for i := 0 to Padding(|output|)
      invariant padded == output + Zeros(i)
    {
      padded := padded + [0];
    }
  }
}
