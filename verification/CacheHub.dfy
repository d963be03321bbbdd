/**
 Typechecking a file with everything it imports, and then compiling it to the term cache
 (core/src/cache.rs). Imports are discovered while typechecking: `Checker` says what typechecking one
 file resolves, and whether it succeeds; `Parser` says which files parse.
 */
module CacheHub {
  import opened Types
  import opened Graph
  import opened TermCache

  datatype ImportTarget = ImportTarget(file: FileId, format: InputFormat)

  datatype AstState = Parsed | Typechecking | Typechecked

  /** The imports resolved while a file is typechecked, in order and up to the first error if there is one. */
  datatype CheckOutcome = CheckOutcome(targets: seq<ImportTarget>, ok: bool)

  type Checker = FileId -> CheckOutcome

  type Parser = FileId -> bool

  type Imports = map<FileId, set<ImportTarget>>

  type Asts = map<FileId, AstState>

  /** `ParseFailed`: resolving an import of `importer` found that `file` does not parse. */
  datatype HubResult = Cached | Done | IncompatibleState | Failed | ParseFailed(importer: FileId, file: FileId) {
    predicate Ok() {
      Cached? || Done?
    }
  }

  function TargetsOf(imports: Imports, f: FileId): set<ImportTarget> {
    if f in imports then imports[f] else {}
  }

  function NickelFiles(targets: set<ImportTarget>): set<FileId> {
    set t <- targets | t.format.Nickel? :: t.file
  }

  predicate NickelImport(imports: Imports, f: FileId, h: FileId) {
    h in NickelFiles(TargetsOf(imports, f))
  }

  /** The imports between Nickel files, and all imports. */
  function NickelEdges(imports: Imports): Edges<FileId> {
    map f <- imports :: NickelFiles(imports[f])
  }

  function AllEdges(imports: Imports): Edges<FileId> {
    map f <- imports :: set t <- imports[f] :: t.file
  }

  /** Every recorded Nickel import is in the cache, and what is typechecked only imports what has been begun. */
  ghost predicate Coherent(imports: Imports, asts: Asts) {
    && (forall f, h | NickelImport(imports, f, h) :: h in asts)
    && Begins(imports, asts)
  }

  ghost predicate Begins(imports: Imports, asts: Asts) {
    forall f <- asts, h | asts[f].Typechecked? && NickelImport(imports, f, h) :: h in asts && !asts[h].Parsed?
  }

  /** The cache after an import that does not parse: its edge is recorded, and is the only one that leads nowhere. */
  ghost predicate Broken(parses: Parser, imports: Imports, asts: Asts, importer: FileId, file: FileId) {
    && NickelImport(imports, importer, file) && file !in asts && !parses(file)
    && (forall f, h | NickelImport(imports, f, h) && (f != importer || h != file) :: h in asts)
    && Begins(imports, asts)
  }

  /** What holds after typechecking: coherent, unless an import did not parse. */
  ghost predicate CoherentUnlessBroken(parses: Parser, imports: Imports, asts: Asts, r: HubResult) {
    if r.ParseFailed? then Broken(parses, imports, asts, r.importer, r.file) else Coherent(imports, asts)
  }

  /** `files` holds every file that typechecking may discover. */
  ghost predicate Universe(files: set<FileId>, check: Checker, asts: Asts) {
    asts.Keys <= files && forall f <- files, t <- check(f).targets :: t.format.Nickel? ==> t.file in files
  }

  function Items(targets: seq<ImportTarget>): set<ImportTarget> {
    set t <- targets
  }

  /** The imports after some targets were recorded for `f`. */
  function Recorded(imports: Imports, f: FileId, targets: seq<ImportTarget>): Imports {
    if targets == [] then imports else imports[f := TargetsOf(imports, f) + Items(targets)]
  }

  /** The targets up to the first that does not parse have been recorded. */
  ghost predicate StopsAt(imports: Imports, f: FileId, targets: seq<ImportTarget>, file: FileId, imports': Imports) {
    exists k ::
      0 <= k < |targets| && targets[k] == ImportTarget(file, Nickel)
        && imports' == Recorded(imports, f, targets[..k + 1])
  }

  class Hub {
    var asts: Asts
    var imports: Imports
    var terms: Terms

    constructor ()
      ensures asts == map[] && imports == map[] && terms == map[]
    {
      asts, imports, terms := map[], map[], map[];
    }

    /**
     Resolves the imports of `f` in order. Each is recorded first; a Nickel file seen for the first
     time is then parsed, and the first one that does not parse ends it.
     */
    method ResolveImports(parses: Parser, f: FileId, targets: seq<ImportTarget>) returns (broken: Option<FileId>)
      requires Coherent(imports, asts) && f in asts && !asts[f].Typechecked?
      modifies this`asts, this`imports
      ensures broken.None? ==> Coherent(imports, asts) && imports == Recorded(old(imports), f, targets)
      ensures broken.Some? ==> Broken(parses, imports, asts, f, broken.value)
      ensures broken.Some? ==> StopsAt(old(imports), f, targets, broken.value, imports)
      ensures AddsParsed(parses, targets, old(asts), asts)
    {
      broken := None;
      for i := 0 to |targets|
        invariant Coherent(imports, asts) && imports == Recorded(old(imports), f, targets[..i])
        invariant AddsParsed(parses, targets, old(asts), asts)
      {
        var t := targets[i];
        RecordOne(old(imports), f, targets, i);
        RecordedCoheres(parses, imports, asts, f, t);
        imports := imports[f := TargetsOf(imports, f) + {t}];
        if t.format.Nickel? && t.file !in asts {
          if !parses(t.file) {
            return Some(t.file);
          }
          asts := asts[t.file := Parsed];
        }
      }
      assert targets[..|targets|] == targets;
    }

    method Typecheck(check: Checker, parses: Parser, f: FileId, ghost files: set<FileId>) returns (r: HubResult)
      requires Coherent(imports, asts) && Universe(files, check, asts)
      modifies this`asts, this`imports
      ensures Universe(files, check, asts) && CoherentUnlessBroken(parses, imports, asts, r)
      ensures Keeps(check, parses, old(imports), old(asts), imports, asts)
      ensures r.Ok() ==> f in asts && !asts[f].Parsed? && NoneLeftUnderWay(old(asts), asts)
      ensures r.IncompatibleState? <==> f !in old(asts)
      ensures r.Cached? <==> f in old(asts) && !old(asts)[f].Parsed?
      ensures r.Done? ==> TargetsOf(imports, f) == TargetsOf(old(imports), f) + Items(check(f).targets)
      ensures r.Failed? || r.ParseFailed? ==> FailsBelow(check, Ahead(check, files, old(imports), old(asts)), f, r)
      decreases files - Begun(asts), 0
    {
      hide Coherent, Universe, Keeps, AddsParsed, Broken, Recorded, NoneLeftUnderWay, FailsBelow, TargetsOf,
           NothingElseStarted, StopsAt, Begun, NickelImportsBegun, Items, NickelFiles, Ahead;
      ghost var imports0, asts0 := imports, asts;
      KeepsNothing(check, parses, imports, asts);
      if f !in asts {
        return HubResult.IncompatibleState;
      }
      if !asts[f].Parsed? {
        return HubResult.Cached;
      }
      StartChecking(check, imports, asts, f, files);
      assert Waiting(asts, f);
      asts := asts[f := Typechecking];
      var outcome := check(f);
      var broken := ResolveImports(parses, f, outcome.targets);
      AfterResolve(check, parses, imports0, asts0, imports, asts, f, files, broken);
      if broken.Some? {
        return ParseFailed(f, broken.value);
      }
      if !outcome.ok {
        return Failed;
      }
      ghost var imports1, asts1 := imports, asts;
      r := TypecheckImports(check, parses, f, files);
      KeepsTwice(check, parses, imports0, asts0, imports1, asts1, imports, asts);
      if !r.Ok() {
        FailureFrom(check, parses, files, imports0, asts0, imports1, asts1, f, r);
        return;
      }
      FinishCheck(check, parses, imports0, asts0, imports1, asts1, imports, asts, f, files);
      asts := asts[f := Typechecked];
      r := HubResult.Done;
    }

    /** Typechecks the Nickel files that `f`, which is under way, imports. */
    method TypecheckImports(check: Checker, parses: Parser, f: FileId, ghost files: set<FileId>) returns (r: HubResult)
      requires Coherent(imports, asts) && Universe(files, check, asts)
      requires f in asts && asts[f].Typechecking?
      modifies this`asts, this`imports
      ensures Universe(files, check, asts) && CoherentUnlessBroken(parses, imports, asts, r)
      ensures Keeps(check, parses, old(imports), old(asts), imports, asts)
      ensures !r.IncompatibleState?
      ensures r.Failed? || r.ParseFailed? ==> FailsUnder(check, files, old(imports), old(asts), f, r)
      ensures r.Ok() ==> NoneLeftUnderWay(old(asts), asts) && NickelImportsBegun(imports, asts, f, {})
      decreases files - Begun(asts), 1
    {
      hide Coherent, Universe, Keeps, Broken, NoneLeftUnderWay, FailsBelow, FailsUnder, NickelImportsBegun, TargetsOf,
           Ahead;
      var todo := NickelFiles(TargetsOf(imports, f));
      r := HubResult.Done;
      KeepsNothing(check, parses, imports, asts);
      ImportsStart(imports, asts, f);
      while todo != {}
        invariant Coherent(imports, asts) && Universe(files, check, asts) && f in asts && asts[f].Typechecking?
        invariant Keeps(check, parses, old(imports), old(asts), imports, asts) && NoneLeftUnderWay(old(asts), asts)
        invariant r.Ok() && TargetsOf(imports, f) == TargetsOf(old(imports), f)
        invariant todo <= NickelFiles(TargetsOf(imports, f)) && NickelImportsBegun(imports, asts, f, todo)
        decreases todo
      {
        var h :| h in todo;
        ghost var imports1, asts1 := imports, asts;
        ImportIsNext(check, parses, old(imports), old(asts), imports, asts, f, h, files);
        r := Typecheck(check, parses, h, files);
        KeepsTwice(check, parses, old(imports), old(asts), imports1, asts1, imports, asts);
        ChecksGoOn(check, parses, imports1, asts1, imports, asts, f, h, todo);
        if !r.Ok() {
          FailureAbove(check, parses, files, old(imports), old(asts), imports1, asts1, f, h, r);
          return;
        }
        NoneLeftTwice(old(asts), asts1, asts);
        todo := todo - {h};
      }
    }

    /**
     Adds a file and all it imports to the term cache. `toMainline` converts an AST; `parseOther` reads
     a file in another format, which may fail.
     */
    method Compile(toMainline: FileId -> Term, parseOther: (FileId, InputFormat) -> Option<Term>, main: FileId)
      returns (r: HubResult)
      modifies this`terms
      ensures !r.ParseFailed? && (r.Cached? <==> main in old(terms))
      ensures r.IncompatibleState? ==> main !in old(terms)
      ensures Coherent(imports, asts) ==> (r.IncompatibleState? <==> main !in old(terms) && main !in asts)
      ensures r.Ok() ==> main in terms && (ImportClosed(imports, old(terms)) ==> ImportClosed(imports, terms))
      ensures forall f <- old(terms) :: f in terms && terms[f] == old(terms)[f]
      ensures forall f <- terms :: f in old(terms) || Reach(AllEdges(imports), main, f)
      ensures forall f <- terms ::
                f in old(terms) || IsCompiled(imports, asts, toMainline, parseOther, main, f, terms[f])
      ensures r.IncompatibleState? ==> exists f :: Asked(imports, main, ImportTarget(f, Nickel)) && f !in asts
      ensures r.Failed? ==>
                exists t :: Asked(imports, main, t) && !t.format.Nickel? && parseOther(t.file, t.format).None?
    {
      if main in terms {
        return HubResult.Cached;
      }
      hide Compiling, StackKnown, Coherent, Reach, IsCompiled, ImportClosed, AllEdges, CompiledFiles, Asked;
      var stack := [ImportTarget(main, Nickel)];
      CompileStarts(imports, asts, terms, main);
      while stack != []
        invariant Compiling(imports, old(terms), terms, stack, main)
        invariant Coherent(imports, asts) ==> StackKnown(asts, terms, stack, main)
        invariant forall f <- terms ::
                    f in old(terms) || IsCompiled(imports, asts, toMainline, parseOther, main, f, terms[f])
        decreases CompiledFiles(imports, main) - terms.Keys, |stack|
      {
        var t := stack[|stack| - 1];
        var rest := stack[..|stack| - 1];
        assert stack == rest + [t];
        StackIsAsked(imports, old(terms), terms, rest, t, main);
        if t.file in terms {
          CompileSkips(imports, asts, old(terms), terms, rest, t, main);
          stack := rest;
        } else {
          var loaded := Load(asts, toMainline, parseOther, t);
          if !loaded.Loaded? {
            CompileStops(imports, asts, old(terms), terms, rest, t, main);
            return if loaded.MissingAst? then HubResult.IncompatibleState else Failed;
          }
          LoadedIsCompiled(imports, asts, toMainline, parseOther, main, t);
          var stack' := Push(rest, TargetsOf(imports, t.file));
          CompileStep(imports, asts, old(terms), terms, rest, t, loaded.entry, stack', main);
          terms, stack := terms[t.file := loaded.entry], stack';
        }
      }
      CompileEnds(imports, old(terms), terms, main);
      r := HubResult.Done;
    }
  }

  // Typechecking

  /** Entries are only added by parsing; those there before stay as they are. */
  ghost predicate AddsParsed(parses: Parser, targets: seq<ImportTarget>, asts: Asts, asts': Asts) {
    && (forall h <- asts :: h in asts' && asts'[h] == asts[h])
    && (forall h <- asts' | h !in asts :: asts'[h].Parsed? && parses(h) && ImportTarget(h, Nickel) in targets)
  }

  lemma RecordOne(imports: Imports, f: FileId, targets: seq<ImportTarget>, i: nat)
    requires i < |targets|
    ensures
      var before := Recorded(imports, f, targets[..i]);
      Recorded(imports, f, targets[..i + 1]) == before[f := TargetsOf(before, f) + {targets[i]}]
  {
    assert targets[..i + 1] == targets[..i] + [targets[i]];
    forall t ensures t in Items(targets[..i + 1]) <==> t in Items(targets[..i]) + {targets[i]} {
    }
    assert Items(targets[..i + 1]) == Items(targets[..i]) + {targets[i]};
    assert TargetsOf(imports, f) + Items(targets[..i + 1]) ==
           TargetsOf(imports, f) + Items(targets[..i]) + {targets[i]};
    var before := Recorded(imports, f, targets[..i]);
    assert |targets[..i + 1]| > 0;
    if i == 0 {
      assert targets[..i] == [] && Items(targets[..i]) == {};
    } else {
      assert |targets[..i]| > 0;
      assert TargetsOf(before, f) == TargetsOf(imports, f) + Items(targets[..i]);
    }
    assert Recorded(imports, f, targets[..i + 1])[f] == before[f := TargetsOf(before, f) + {targets[i]}][f];
  }

  lemma RecordedImports(imports: Imports, f: FileId, t: ImportTarget)
    ensures
      var imports' := imports[f := TargetsOf(imports, f) + {t}];
      forall g, h ::
        NickelImport(imports', g, h) <==> NickelImport(imports, g, h) || (g == f && t == ImportTarget(h, Nickel))
  {
  }

  /** Recording one import: coherent once its file is in the cache, and broken if it does not parse. */
  lemma RecordedCoheres(parses: Parser, imports: Imports, asts: Asts, f: FileId, t: ImportTarget)
    requires Coherent(imports, asts) && f in asts && !asts[f].Typechecked?
    ensures
      var imports' := imports[f := TargetsOf(imports, f) + {t}];
      && (!t.format.Nickel? || t.file in asts ==> Coherent(imports', asts))
      && (t.format.Nickel? && t.file !in asts ==> Coherent(imports', asts[t.file := Parsed]))
      && (t.format.Nickel? && t.file !in asts && !parses(t.file) ==> Broken(parses, imports', asts, f, t.file))
  {
    RecordedImports(imports, f, t);
  }

  /** Typechecking has not come to `f` yet. */
  predicate Waiting(asts: Asts, f: FileId) {
    f !in asts || asts[f].Parsed?
  }

  /**
   Entries are never lost; those past parsing keep their state and their imports, and those still
   waiting their imports; those added parse, and those newly typechecked have passed the check.
   */
  ghost predicate Keeps(check: Checker, parses: Parser, imports: Imports, asts: Asts, imports': Imports, asts': Asts) {
    && asts.Keys <= asts'.Keys
    && (forall h <- asts :: !asts[h].Parsed? ==> asts'[h] == asts[h] && TargetsOf(imports', h) == TargetsOf(imports, h))
    && (forall h | Waiting(asts', h) :: TargetsOf(imports', h) == TargetsOf(imports, h))
    && (forall h <- asts' | h !in asts :: parses(h))
    && (forall h <- asts' | asts'[h].Typechecked? && Waiting(asts, h) ::
          check(h).ok && TargetsOf(imports', h) == TargetsOf(imports, h) + Items(check(h).targets))
  }

  /** The imports that typechecking would follow: those of the files it has not come to yet. */
  function Ahead(check: Checker, files: set<FileId>, imports: Imports, asts: Asts): Edges<FileId> {
    map f <- files | Waiting(asts, f) :: NickelFiles(TargetsOf(imports, f) + Items(check(f).targets))
  }

  /** There is only less ahead as typechecking goes on. */
  lemma LessAhead(check: Checker, parses: Parser, files: set<FileId>, imports: Imports, asts: Asts, imports': Imports,
                  asts': Asts)
    requires Keeps(check, parses, imports, asts, imports', asts')
    ensures forall h <- Ahead(check, files, imports', asts') ::
      h in Ahead(check, files, imports, asts)
        && Ahead(check, files, imports, asts)[h] == Ahead(check, files, imports', asts')[h]
  {
  }

  lemma KeepsNothing(check: Checker, parses: Parser, imports: Imports, asts: Asts)
    ensures Keeps(check, parses, imports, asts, imports, asts) && NoneLeftUnderWay(asts, asts)
  {
  }

  lemma KeepsTwice(check: Checker, parses: Parser, imports: Imports, asts: Asts, imports1: Imports, asts1: Asts,
                   imports2: Imports, asts2: Asts)
    requires Keeps(check, parses, imports, asts, imports1, asts1)
    requires Keeps(check, parses, imports1, asts1, imports2, asts2)
    ensures Keeps(check, parses, imports, asts, imports2, asts2)
  {
  }

  ghost predicate NoneLeftUnderWay(asts: Asts, asts': Asts) {
    forall h <- asts' :: asts'[h].Typechecking? ==> h in asts && asts[h].Typechecking?
  }

  lemma NoneLeftTwice(asts: Asts, asts1: Asts, asts2: Asts)
    requires NoneLeftUnderWay(asts, asts1) && NoneLeftUnderWay(asts1, asts2)
    ensures NoneLeftUnderWay(asts, asts2)
  {
  }

  function Begun(asts: Asts): set<FileId> {
    set f <- asts | !asts[f].Parsed?
  }

  lemma StartChecking(check: Checker, imports: Imports, asts: Asts, f: FileId, files: set<FileId>)
    requires Coherent(imports, asts) && Universe(files, check, asts) && f in asts && asts[f].Parsed?
    ensures Coherent(imports, asts[f := Typechecking]) && Universe(files, check, asts[f := Typechecking]) && f in files
  {
  }

  ghost predicate NothingElseStarted(asts: Asts, asts': Asts, f: FileId) {
    forall h <- asts' :: asts'[h].Typechecking? ==> h == f || (h in asts && asts[h].Typechecking?)
  }

  lemma AfterResolve(check: Checker, parses: Parser, imports: Imports, asts: Asts, imports': Imports, asts': Asts,
                     f: FileId, files: set<FileId>, broken: Option<FileId>)
    requires Universe(files, check, asts) && f in asts && asts[f].Parsed?
    requires AddsParsed(parses, check(f).targets, asts[f := Typechecking], asts')
    requires if broken.None? then imports' == Recorded(imports, f, check(f).targets)
             else StopsAt(imports, f, check(f).targets, broken.value, imports')
    ensures Universe(files, check, asts') && Keeps(check, parses, imports, asts, imports', asts') && f in asts'
    ensures asts'[f].Typechecking?
    ensures files - Begun(asts') < files - Begun(asts) && NothingElseStarted(asts, asts', f)
    ensures broken.None? ==> TargetsOf(imports', f) == TargetsOf(imports, f) + Items(check(f).targets)
    ensures broken.Some? ==> FailsBelow(check, Ahead(check, files, imports, asts), f, ParseFailed(f, broken.value))
    ensures !check(f).ok ==> FailsBelow(check, Ahead(check, files, imports, asts), f, Failed)
  {
    assert f in files - Begun(asts) && f !in files - Begun(asts');
    ResolveKeeps(check, parses, imports, asts, imports', asts', f, broken);
    hide Keeps, Recorded, AddsParsed;
    ReachSelf(Ahead(check, files, imports, asts), f);
    if broken.Some? {
      BrokenIsAhead(check, files, imports, asts, f, broken.value, imports');
    }
  }

  lemma ResolveKeeps(check: Checker, parses: Parser, imports: Imports, asts: Asts, imports': Imports, asts': Asts,
                     f: FileId, broken: Option<FileId>)
    requires f in asts && asts[f].Parsed? && AddsParsed(parses, check(f).targets, asts[f := Typechecking], asts')
    requires if broken.None? then imports' == Recorded(imports, f, check(f).targets)
             else StopsAt(imports, f, check(f).targets, broken.value, imports')
    ensures Keeps(check, parses, imports, asts, imports', asts')
    ensures broken.None? ==> TargetsOf(imports', f) == TargetsOf(imports, f) + Items(check(f).targets)
  {
    assert forall h | h != f :: TargetsOf(imports', h) == TargetsOf(imports, h);
  }

  lemma BrokenIsAhead(check: Checker, files: set<FileId>, imports: Imports, asts: Asts, f: FileId, file: FileId,
                      imports': Imports)
    requires f in files && Waiting(asts, f) && StopsAt(imports, f, check(f).targets, file, imports')
    ensures Edge(Ahead(check, files, imports, asts), f, file)
  {
    var k :| 0 <= k < |check(f).targets| && check(f).targets[k] == ImportTarget(file, Nickel);
    assert ImportTarget(file, Nickel) in Items(check(f).targets);
  }

  /** The Nickel imports of `f` have been begun, but for some. */
  ghost predicate NickelImportsBegun(imports: Imports, asts: Asts, f: FileId, todo: set<FileId>) {
    forall h <- NickelFiles(TargetsOf(imports, f)) :: h in todo || (h in asts && !asts[h].Parsed?)
  }

  lemma ImportsStart(imports: Imports, asts: Asts, f: FileId)
    ensures NickelImportsBegun(imports, asts, f, NickelFiles(TargetsOf(imports, f)))
  {
  }

  lemma ImportIsNext(check: Checker, parses: Parser, imports: Imports, asts: Asts, imports': Imports, asts': Asts,
                     f: FileId, h: FileId, files: set<FileId>)
    requires Coherent(imports', asts') && h in NickelFiles(TargetsOf(imports', f))
    requires Keeps(check, parses, imports, asts, imports', asts')
    ensures h in asts' && files - Begun(asts') <= files - Begun(asts)
  {
    assert NickelImport(imports', f, h);
  }

  lemma ChecksGoOn(check: Checker, parses: Parser, imports: Imports, asts: Asts, imports': Imports, asts': Asts,
                   f: FileId, h: FileId, todo: set<FileId>)
    requires f in asts && asts[f].Typechecking? && Keeps(check, parses, imports, asts, imports', asts')
    requires NickelImportsBegun(imports, asts, f, todo) && todo <= NickelFiles(TargetsOf(imports, f)) && h in todo
    ensures f in asts' && asts'[f].Typechecking? && TargetsOf(imports', f) == TargetsOf(imports, f)
    ensures h in asts' && !asts'[h].Parsed? ==> NickelImportsBegun(imports', asts', f, todo - {h})
  {
  }

  lemma FinishCheck(check: Checker, parses: Parser, imports: Imports, asts: Asts, imports1: Imports, asts1: Asts,
                    imports': Imports, asts': Asts, f: FileId, files: set<FileId>)
    requires Coherent(imports', asts') && Universe(files, check, asts') && f in asts && asts[f].Parsed?
    requires f in asts1 && asts1[f].Typechecking? && Keeps(check, parses, imports1, asts1, imports', asts')
    requires NoneLeftUnderWay(asts1, asts')
    requires Keeps(check, parses, imports, asts, imports', asts') && NickelImportsBegun(imports', asts', f, {})
    requires NothingElseStarted(asts, asts1, f) && check(f).ok
    requires TargetsOf(imports1, f) == TargetsOf(imports, f) + Items(check(f).targets)
    ensures f in asts' && Coherent(imports', asts'[f := Typechecked]) && Universe(files, check, asts'[f := Typechecked])
    ensures Keeps(check, parses, imports, asts, imports', asts'[f := Typechecked])
    ensures NoneLeftUnderWay(asts, asts'[f := Typechecked])
    ensures TargetsOf(imports', f) == TargetsOf(imports1, f)
  {
    hide TargetsOf, Items, NickelFiles, Coherent, Keeps, NickelImportsBegun;
    StillThere(check, parses, imports1, asts1, imports', asts', f);
    FinishCoherent(imports', asts', f);
    FinishKeeps(check, parses, imports, asts, imports', asts', f);
  }

  lemma StillThere(check: Checker, parses: Parser, imports: Imports, asts: Asts, imports': Imports, asts': Asts,
                   f: FileId)
    requires Keeps(check, parses, imports, asts, imports', asts') && f in asts && asts[f].Typechecking?
    ensures f in asts' && asts'[f].Typechecking? && TargetsOf(imports', f) == TargetsOf(imports, f)
  {
  }

  lemma FinishCoherent(imports: Imports, asts: Asts, f: FileId)
    requires Coherent(imports, asts) && f in asts && asts[f].Typechecking? && NickelImportsBegun(imports, asts, f, {})
    ensures Coherent(imports, asts[f := Typechecked])
  {
    hide TargetsOf, NickelFiles;
  }

  lemma FinishKeeps(check: Checker, parses: Parser, imports: Imports, asts: Asts, imports': Imports, asts': Asts,
                    f: FileId)
    requires Keeps(check, parses, imports, asts, imports', asts') && f in asts && asts[f].Parsed? && f in asts'
    requires check(f).ok && TargetsOf(imports', f) == TargetsOf(imports, f) + Items(check(f).targets)
    ensures Keeps(check, parses, imports, asts, imports', asts'[f := Typechecked])
  {
    hide TargetsOf, Items;
  }

  /** The main file, as Nickel code, or a file in the format in which something in reach of `main` imports it. */
  ghost predicate Asked(imports: Imports, main: FileId, t: ImportTarget) {
    || t == ImportTarget(main, Nickel)
    || exists f :: Reach(AllEdges(imports), main, f) && t in TargetsOf(imports, f)
  }

  /**
   A new entry of the term cache has a format that was asked for. It holds the converted AST if that is
   Nickel, and otherwise what reading the file in that format gave.
   */
  ghost predicate IsCompiled(imports: Imports, asts: Asts, toMainline: FileId -> Term,
                             parseOther: (FileId, InputFormat) -> Option<Term>, main: FileId, f: FileId,
                             entry: TermEntry) {
    && Asked(imports, main, ImportTarget(f, entry.format)) && entry.state.Populated?
    && if entry.format.Nickel? then f in asts && entry.value == toMainline(f)
       else parseOther(f, entry.format) == Some(entry.value)
  }

  /** The cause of a failure is among the files ahead that `f` reaches, or imported by one of them. */
  ghost predicate FailsBelow(check: Checker, ahead: Edges<FileId>, f: FileId, r: HubResult) {
    if r.ParseFailed? then Reach(ahead, f, r.importer) && Edge(ahead, r.importer, r.file)
    else exists h <- ahead :: Reach(ahead, f, h) && !check(h).ok
  }

  /** The cause of a failure is below an import of `f`. */
  ghost predicate FailsUnder(check: Checker, files: set<FileId>, imports: Imports, asts: Asts, f: FileId,
                             r: HubResult) {
    exists h <- NickelFiles(TargetsOf(imports, f)) :: FailsBelow(check, Ahead(check, files, imports, asts), h, r)
  }

  lemma FailsInLarger(check: Checker, ahead: Edges<FileId>, larger: Edges<FileId>, f: FileId, r: HubResult)
    requires FailsBelow(check, ahead, f, r) && forall h <- ahead :: h in larger && larger[h] == ahead[h]
    ensures FailsBelow(check, larger, f, r)
  {
    if r.ParseFailed? {
      ReachInLarger(ahead, larger, f, r.importer);
    } else {
      var h :| h in ahead && Reach(ahead, f, h) && !check(h).ok;
      ReachInLarger(ahead, larger, f, h);
    }
  }

  lemma FailureAbove(check: Checker, parses: Parser, files: set<FileId>, imports: Imports, asts: Asts,
                     imports1: Imports, asts1: Asts, f: FileId, h: FileId, r: HubResult)
    requires Keeps(check, parses, imports, asts, imports1, asts1) && h in NickelFiles(TargetsOf(imports, f))
    requires FailsBelow(check, Ahead(check, files, imports1, asts1), h, r)
    ensures FailsUnder(check, files, imports, asts, f, r)
  {
    hide FailsBelow;
    LessAhead(check, parses, files, imports, asts, imports1, asts1);
    FailsInLarger(check, Ahead(check, files, imports1, asts1), Ahead(check, files, imports, asts), h, r);
  }

  lemma FailureFrom(check: Checker, parses: Parser, files: set<FileId>, imports: Imports, asts: Asts, imports1: Imports,
                    asts1: Asts, f: FileId, r: HubResult)
    requires f in files && Waiting(asts, f) && Keeps(check, parses, imports, asts, imports1, asts1)
    requires TargetsOf(imports1, f) == TargetsOf(imports, f) + Items(check(f).targets)
    requires FailsUnder(check, files, imports1, asts1, f, r)
    ensures FailsBelow(check, Ahead(check, files, imports, asts), f, r)
  {
    var ahead := Ahead(check, files, imports, asts);
    var h :| h in NickelFiles(TargetsOf(imports1, f)) && FailsBelow(check, Ahead(check, files, imports1, asts1), h, r);
    LessAhead(check, parses, files, imports, asts, imports1, asts1);
    FailsInLarger(check, Ahead(check, files, imports1, asts1), ahead, h, r);
    assert Edge(ahead, f, h);
    if r.ParseFailed? {
      EdgeThenReach(ahead, f, h, r.importer);
    } else {
      var x :| x in ahead && Reach(ahead, h, x) && !check(x).ok;
      EdgeThenReach(ahead, f, h, x);
    }
  }

  ghost function CompiledFiles(imports: Imports, main: FileId): set<FileId> {
    (set t <- AllTargets(imports) :: t.file) + {main}
  }

  /** The state of a compilation of `main` that started from the terms `start`. */
  ghost predicate Compiling(imports: Imports, start: Terms, terms: Terms, stack: seq<ImportTarget>, main: FileId) {
    && (forall f <- start :: f in terms && terms[f] == start[f])
    && (forall f <- terms :: f in start || Reach(AllEdges(imports), main, f))
    && (forall t <- stack :: t.file in CompiledFiles(imports, main) && Reach(AllEdges(imports), main, t.file))
    && (forall t <- stack :: Asked(imports, main, t))
    && (forall f <- terms, t <- TargetsOf(imports, f) :: f in start || t.file in terms || t in stack)
    && (main in terms || stack == [ImportTarget(main, Nickel)])
  }

  /** On a coherent cache every Nickel file on the stack is known, once `main` is. */
  ghost predicate StackKnown(asts: Asts, terms: Terms, stack: seq<ImportTarget>, main: FileId) {
    main in terms ==> main in asts && forall t <- stack :: t.format.Nickel? ==> t.file in asts
  }

  datatype LoadResult = Loaded(entry: TermEntry) | MissingAst | Unreadable

  /** The new entry of a file. */
  function Load(asts: Asts, toMainline: FileId -> Term, parseOther: (FileId, InputFormat) -> Option<Term>,
                t: ImportTarget): LoadResult {
    if t.format.Nickel? then
      if t.file in asts then Loaded(TermEntry(toMainline(t.file), Nickel, Populated)) else MissingAst
    else
      match parseOther(t.file, t.format)
      case None => Unreadable
      case Some(term) => Loaded(TermEntry(term, t.format, Populated))
  }

  lemma LoadedIsCompiled(imports: Imports, asts: Asts, toMainline: FileId -> Term,
                         parseOther: (FileId, InputFormat) -> Option<Term>, main: FileId, t: ImportTarget)
    requires Asked(imports, main, t) && Load(asts, toMainline, parseOther, t).Loaded?
    ensures IsCompiled(imports, asts, toMainline, parseOther, main, t.file,
                       Load(asts, toMainline, parseOther, t).entry)
  {
    hide Asked;
  }

  lemma StackIsAsked(imports: Imports, start: Terms, terms: Terms, stack: seq<ImportTarget>, t: ImportTarget,
                     main: FileId)
    requires Compiling(imports, start, terms, stack + [t], main)
    ensures Asked(imports, main, t)
  {
    hide Asked, Reach, AllEdges;
    assert t in stack + [t];
  }

  lemma CompileStarts(imports: Imports, asts: Asts, terms: Terms, main: FileId)
    requires main !in terms
    ensures Compiling(imports, terms, terms, [ImportTarget(main, Nickel)], main)
    ensures StackKnown(asts, terms, [ImportTarget(main, Nickel)], main)
  {
    ReachSelf(AllEdges(imports), main);
  }

  lemma CompileSkips(imports: Imports, asts: Asts, start: Terms, terms: Terms, stack: seq<ImportTarget>,
                     t: ImportTarget, main: FileId)
    requires Compiling(imports, start, terms, stack + [t], main) && t.file in terms
    ensures Compiling(imports, start, terms, stack, main)
    ensures StackKnown(asts, terms, stack + [t], main) ==> StackKnown(asts, terms, stack, main)
  {
    hide Reach, AllEdges, Asked;
    assert t in stack + [t];
    assert forall u <- stack :: u in stack + [t];
  }

  lemma CompileStops(imports: Imports, asts: Asts, start: Terms, terms: Terms, stack: seq<ImportTarget>,
                     t: ImportTarget, main: FileId)
    requires Compiling(imports, start, terms, stack + [t], main) && t.file !in terms
    ensures (forall f <- start :: f in terms && terms[f] == start[f]) && Reach(AllEdges(imports), main, t.file)
    ensures forall f <- terms :: f in start || Reach(AllEdges(imports), main, f)
    ensures StackKnown(asts, terms, stack + [t], main) && t.format.Nickel? && t.file !in asts ==> main !in asts
  {
    assert t in stack + [t];
    if main !in terms {
      assert (stack + [t])[|stack|] == t;
    }
  }

  lemma CompileEnds(imports: Imports, start: Terms, terms: Terms, main: FileId)
    requires Compiling(imports, start, terms, [], main)
    ensures main in terms && (ImportClosed(imports, start) ==> ImportClosed(imports, terms))
    ensures forall f <- start :: f in terms && terms[f] == start[f]
    ensures forall f <- terms :: f in start || Reach(AllEdges(imports), main, f)
  {
  }

  lemma CompileStep(imports: Imports, asts: Asts, start: Terms, terms: Terms, stack: seq<ImportTarget>, t: ImportTarget,
                    entry: TermEntry, stack': seq<ImportTarget>, main: FileId)
    requires Compiling(imports, start, terms, stack + [t], main) && t.file !in terms
    requires forall u :: u in stack' <==> u in stack || u in TargetsOf(imports, t.file)
    ensures Compiling(imports, start, terms[t.file := entry], stack', main)
    ensures Coherent(imports, asts) && (t.format.Nickel? ==> t.file in asts)
            && StackKnown(asts, terms, stack + [t], main) ==>
      StackKnown(asts, terms[t.file := entry], stack', main)
    ensures CompiledFiles(imports, main) - terms[t.file := entry].Keys < CompiledFiles(imports, main) - terms.Keys
  {
    hide AllEdges, CompiledFiles, Asked;
    assert t in stack + [t];
    ReachTargets(imports, main, t.file);
    if main !in terms {
      assert (stack + [t])[|stack|] == t;
    }
    if Coherent(imports, asts) {
      forall u <- TargetsOf(imports, t.file) | u.format.Nickel? ensures u.file in asts {
        assert NickelImport(imports, t.file, u.file);
      }
    }
    var todo := CompiledFiles(imports, main) - terms.Keys;
    assert t.file in todo && CompiledFiles(imports, main) - terms[t.file := entry].Keys == todo - {t.file};
  }

  lemma ReachTargets(imports: Imports, main: FileId, f: FileId)
    requires Reach(AllEdges(imports), main, f)
    ensures forall t <- TargetsOf(imports, f) :: t in AllTargets(imports) && Reach(AllEdges(imports), main, t.file)
    ensures forall t <- TargetsOf(imports, f) :: t.file in CompiledFiles(imports, main) && Asked(imports, main, t)
  {
    hide Reach;
    forall t <- TargetsOf(imports, f) ensures t in AllTargets(imports) && Reach(AllEdges(imports), main, t.file) {
      ReachThenEdge(AllEdges(imports), main, f, t.file);
    }
  }

  function AllTargets(imports: Imports): set<ImportTarget> {
    set f <- imports, t <- imports[f] :: t
  }

  /** Puts targets on the stack, in whatever order the set gives them. */
  method Push(stack: seq<ImportTarget>, targets: set<ImportTarget>) returns (r: seq<ImportTarget>)
    ensures forall t :: t in r <==> t in stack || t in targets
  {
    r := stack;
    var todo := targets;
    while todo != {}
      invariant todo <= targets && forall t :: t in r <==> t in stack || t in targets - todo
      decreases todo
    {
      var t :| t in todo;
      r, todo := r + [t], todo - {t};
    }
  }

  /** Whatever is in the term cache, its imports are too. */
  ghost predicate ImportClosed(imports: Imports, terms: Terms) {
    forall f <- terms, t <- TargetsOf(imports, f) :: t.file in terms
  }

  // The two phases together

  lemma EdgesAreImports(imports: Imports, f: FileId, h: FileId)
    ensures Edge(NickelEdges(imports), f, h) <==> NickelImport(imports, f, h)
    ensures Edge(AllEdges(imports), f, h) <==> exists t :: t in TargetsOf(imports, f) && t.file == h
  {
  }

  /** With nothing left under way, everything a typechecked file imports is typechecked. */
  lemma TypecheckedReachable(imports: Imports, asts: Asts, main: FileId)
    requires Coherent(imports, asts) && (forall h <- asts :: !asts[h].Typechecking?)
    requires main in asts && asts[main].Typechecked?
    ensures forall h | Reach(NickelEdges(imports), main, h) :: h in asts && asts[h].Typechecked?
  {
    var finished := set h <- asts | asts[h].Typechecked?;
    forall f <- finished, h | Edge(NickelEdges(imports), f, h) ensures h in finished {
      EdgesAreImports(imports, f, h);
    }
    forall h | Reach(NickelEdges(imports), main, h) ensures h in finished {
      ReachStaysInside(NickelEdges(imports), finished, main, h);
    }
  }

  /** Everything ahead of `main` parses and passes the check. */
  ghost predicate AllChecks(check: Checker, parses: Parser, files: set<FileId>, imports: Imports, asts: Asts,
                            main: FileId) {
    var ahead := Ahead(check, files, imports, asts);
    forall h <- ahead | Reach(ahead, main, h) :: (h in asts || parses(h)) && check(h).ok
  }

  lemma ChecksAfterSuccess(check: Checker, parses: Parser, files: set<FileId>, imports: Imports, asts: Asts,
                           imports': Imports, asts': Asts, main: FileId)
    requires Keeps(check, parses, imports, asts, imports', asts') && Coherent(imports', asts')
    requires (forall h <- asts' :: !asts'[h].Typechecking?) && main in asts' && asts'[main].Typechecked?
    ensures AllChecks(check, parses, files, imports, asts, main)
  {
    var ahead := Ahead(check, files, imports, asts);
    var finished := set h <- asts' | asts'[h].Typechecked?;
    forall f <- finished, h | Edge(ahead, f, h) ensures h in finished {
      assert NickelImport(imports', f, h);
    }
    forall h <- ahead | Reach(ahead, main, h) ensures h in finished {
      ReachStaysInside(ahead, finished, main, h);
    }
  }

  lemma FailureIsCause(check: Checker, parses: Parser, files: set<FileId>, imports: Imports, asts: Asts,
                       imports': Imports, asts': Asts, main: FileId, r: HubResult)
    requires Coherent(imports, asts) && Universe(files, check, asts)
    requires Keeps(check, parses, imports, asts, imports', asts')
    requires (r.Failed? || r.ParseFailed?) && FailsBelow(check, Ahead(check, files, imports, asts), main, r)
    requires CoherentUnlessBroken(parses, imports', asts', r)
    ensures !AllChecks(check, parses, files, imports, asts, main)
  {
    var ahead := Ahead(check, files, imports, asts);
    if r.ParseFailed? {
      ReachThenEdge(ahead, main, r.importer, r.file);
      AheadIsKnown(check, files, imports, asts, r.importer, r.file);
      assert r.file in ahead;
    }
  }

  lemma AheadIsKnown(check: Checker, files: set<FileId>, imports: Imports, asts: Asts, f: FileId, h: FileId)
    requires Coherent(imports, asts) && Universe(files, check, asts) && Edge(Ahead(check, files, imports, asts), f, h)
    ensures h in files
  {
    if h in NickelFiles(TargetsOf(imports, f)) {
      assert NickelImport(imports, f, h);
    }
  }

  /** The cache is coherent exactly when every recorded import that was not there before parses. */
  lemma CoherentWhenParsed(check: Checker, parses: Parser, imports: Imports, asts: Asts, imports': Imports, asts': Asts,
                           r: HubResult)
    requires Keeps(check, parses, imports, asts, imports', asts') && CoherentUnlessBroken(parses, imports', asts', r)
    ensures Coherent(imports', asts') <==> forall f, h | NickelImport(imports', f, h) && h !in asts :: parses(h)
  {
    if r.ParseFailed? {
      assert NickelImport(imports', r.importer, r.file) && r.file !in asts;
    }
  }

  /**
   Typechecking from a cache with nothing under way succeeds exactly when the file is there and
   everything ahead of it parses and passes the check; and it leaves the cache coherent exactly when
   every import it recorded parses.
   */
  method TypecheckAll(hub: Hub, check: Checker, parses: Parser, main: FileId, ghost files: set<FileId>)
    returns (r: HubResult)
    requires Coherent(hub.imports, hub.asts) && Universe(files, check, hub.asts)
    requires forall h <- hub.asts :: !hub.asts[h].Typechecking?
    modifies hub
    ensures r.Ok() <==> main in old(hub.asts) && AllChecks(check, parses, files, old(hub.imports), old(hub.asts), main)
    ensures r.Ok() ==> forall h | Reach(NickelEdges(hub.imports), main, h) :: h in hub.asts && hub.asts[h].Typechecked?
    ensures Coherent(hub.imports, hub.asts) <==>
            forall f, h | NickelImport(hub.imports, f, h) && h !in old(hub.asts) :: parses(h)
  {
    hide Keeps, Reach, Coherent, Universe, AllChecks, FailsBelow, Ahead, Broken;
    ghost var imports, asts := hub.imports, hub.asts;
    r := hub.Typecheck(check, parses, main, files);
    CoherentWhenParsed(check, parses, imports, asts, hub.imports, hub.asts, r);
    if r.Ok() {
      TypecheckedReachable(hub.imports, hub.asts, main);
      ChecksAfterSuccess(check, parses, files, imports, asts, hub.imports, hub.asts, main);
    } else if !r.IncompatibleState? {
      FailureIsCause(check, parses, files, imports, asts, hub.imports, hub.asts, main, r);
    }
  }

  lemma CompiledReachable(imports: Imports, terms: Terms, main: FileId)
    requires ImportClosed(imports, terms) && main in terms
    ensures forall h | Reach(AllEdges(imports), main, h) :: h in terms
  {
    forall f <- terms, h | Edge(AllEdges(imports), f, h) ensures h in terms.Keys {
      EdgesAreImports(imports, f, h);
    }
    forall h | Reach(AllEdges(imports), main, h) ensures h in terms {
      ReachStaysInside(AllEdges(imports), terms.Keys, main, h);
    }
  }

  /** Whatever is asked for in another format than Nickel can be read in that format. */
  ghost predicate Readable(imports: Imports, parseOther: (FileId, InputFormat) -> Option<Term>, main: FileId) {
    forall t | Asked(imports, main, t) && !t.format.Nickel? :: parseOther(t.file, t.format).Some?
  }

  /**
   Typechecking and then compiling. Once typechecking succeeds, every Nickel file in reach is
   typechecked and compilation never misses an entry, and fails only on a file that cannot be read in
   the format it is imported in; when it succeeds too, everything in reach is in the term cache.
   */
  method TypecheckAndCompile(hub: Hub, check: Checker, parses: Parser, toMainline: FileId -> Term,
                             parseOther: (FileId, InputFormat) -> Option<Term>, main: FileId, ghost files: set<FileId>)
    returns (checked: HubResult, compiled: HubResult)
    requires Coherent(hub.imports, hub.asts) && Universe(files, check, hub.asts)
    requires forall h <- hub.asts :: !hub.asts[h].Typechecking?
    modifies hub
    ensures checked.Ok() ==> forall h | Reach(NickelEdges(hub.imports), main, h) ::
              h in hub.asts && hub.asts[h].Typechecked?
    ensures checked.Ok() ==> !compiled.IncompatibleState?
    ensures checked.Ok() && Readable(hub.imports, parseOther, main) ==> compiled.Ok()
    ensures checked.Ok() && compiled.Ok() && ImportClosed(hub.imports, old(hub.terms)) ==>
      forall h | Reach(AllEdges(hub.imports), main, h) :: h in hub.terms
  {
    compiled := Failed;
    hide Reach;
    checked := hub.Typecheck(check, parses, main, files);
    if checked.Ok() {
      TypecheckedReachable(hub.imports, hub.asts, main);
      compiled := hub.Compile(toMainline, parseOther, main);
      if compiled.Ok() && ImportClosed(hub.imports, old(hub.terms)) {
        CompiledReachable(hub.imports, hub.terms, main);
      }
    }
  }

  /** A file that imports one which does not parse: the edge stays behind, and the cache is not coherent. */
  method BrokenImport() returns (hub: Hub, r: HubResult)
    ensures r.ParseFailed? && r.file == 1
    ensures NickelImport(hub.imports, r.importer, 1) && 1 !in hub.asts && !Coherent(hub.imports, hub.asts)
  {
    hub := new Hub();
    hub.asts := map[0 := Parsed];
    var check: Checker := f => CheckOutcome(if f == 0 then [ImportTarget(1, Nickel)] else [], true);
    var parses: Parser := f => f != 1;
    ghost var asts := hub.asts;
    r := hub.Typecheck(check, parses, 0, {0, 1});
    NeverParsed(check, parses, asts, hub.imports, hub.asts);
    ImportsOne(hub.imports);
  }

  lemma NeverParsed(check: Checker, parses: Parser, asts: Asts, imports: Imports, asts': Asts)
    requires 1 !in asts && !parses(1) && Keeps(check, parses, map[], asts, imports, asts')
    ensures 1 !in asts'
  {
  }

  lemma ImportsOne(imports: Imports)
    ensures TargetsOf(imports, 0) == {} + Items([ImportTarget(1, Nickel)]) ==> NickelImport(imports, 0, 1)
  {
    assert ImportTarget(1, Nickel) in Items([ImportTarget(1, Nickel)]);
  }
}
