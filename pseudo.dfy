/** The species part of the fdf input (`BaseSiesta._write_species`,
    ase/calculators/siesta/base_siesta.py lines 489-579, without the energy
    and spin directives) and `pseudo_qualifier` (lines 581-590): where each
    specie's pseudopotential file is looked for, the numbered link name it
    gets in the run directory, and its `ChemicalSpeciesLabel` line. */
module Pseudo {
  import opened Wrappers
  import opened Text
  import opened Species

  /** The errors of the species part, in the order they can arise. */
  datatype PseudoError =
    | PseudoPathUnset                 // Exception, lines 522-524
    | UnknownSymbol(symbol: string)   // KeyError of `atomic_numbers[symbol]`, line 534
    | PseudoNotFound(path: string)    // RuntimeError, lines 551-553

  /** `pseudo_qualifier()`: the user's qualifier, or else the lower-cased
      name of the functional. */
  function PseudoQualifier(qualifier: Option<string>, functional: string): (q: string)
    ensures qualifier.Some? ==> q == qualifier.value
    ensures qualifier.None? ==> |q| == |functional|
    ensures qualifier.None? ==> forall i :: 0 <= i < |q| ==> !('A' <= q[i] <= 'Z')
    ensures qualifier.None? ==> forall i :: 0 <= i < |q| ==>
              q[i] == functional[i] || ('A' <= functional[i] <= 'Z' && q[i] as int == functional[i] as int + 32)
  {
    if qualifier.None? then Lower(functional) else qualifier.value
  }

  /** Lines 518-524: the `pseudo_path` parameter, else the environment's
      `SIESTA_PP_PATH`, else an error. */
  function PseudoDirectory(pseudoPath: Option<string>, environment: Option<string>): (r: Result<string, PseudoError>)
    ensures pseudoPath.Some? ==> r == Success(pseudoPath.value)
    ensures pseudoPath.None? && environment.Some? ==> r == Success(environment.value)
    ensures r.Failure? <==> pseudoPath.None? && environment.None?
  {
    if pseudoPath.Some? then Success(pseudoPath.value)
    else if environment.Some? then Success(environment.value)
    else Failure(PseudoPathUnset)
  }

  /** Lines 536-546: the file a specie names as given, or else
      `symbol.psf` / `symbol.qualifier.psf`. The label these lines compute
      is overwritten at line 568 before any use, so it is not modelled. */
  function PseudoFile(specie: Specie, qualifier: string): (file: string)
    ensures specie.pseudopotential.Some? ==> file == specie.pseudopotential.value
    ensures specie.pseudopotential.None? && qualifier == "" ==> file == specie.symbol + ".psf"
    ensures specie.pseudopotential.None? && qualifier != "" ==> file == specie.symbol + "." + qualifier + ".psf"
  {
    if specie.pseudopotential.Some? then specie.pseudopotential.value
    else if qualifier == "" then specie.symbol + ".psf"
    else
      assert [specie.symbol, qualifier][1..] == [qualifier];
      assert Join([specie.symbol, qualifier], '.') == specie.symbol + "." + qualifier;
      Join([specie.symbol, qualifier], '.') + ".psf"
  }

  /** Lines 548-549: a relative file is looked for in the pseudopotential
      directory. */
  function Locate(file: string, directory: string): (path: string)
    ensures IsAbs(file) ==> path == file
    ensures !IsAbs(file) ==> path == PathJoin(directory, file)
    ensures '/' !in file ==> Basename(path) == file
  {
    if IsAbs(file) then file
    else if '/' !in file then
      BasenameOfJoin(directory, file);
      PathJoin(directory, file)
    else PathJoin(directory, file)
  }

  /** Lines 555-561: the link name, the file's base name with the species
      number (and `ghost` for a ghost) inserted before its last dotted part. */
  function LinkName(path: string, number: int, isGhost: bool): (name: string)
    ensures var parts := Split(Basename(path), '.');
      Split(name, '.') == parts[..|parts| - 1] + [FormatInt(number)] + (if isGhost then ["ghost"] else []) + [parts[|parts| - 1]]
  {
    var base := Split(Basename(path), '.');
    var f := FormatInt(number);
    FormatIntNoDot(number);
    NamedPartsSplit(base, f, isGhost);
    Join(NamedParts(base, f, isGhost), '.')
  }

  /** Lines 557-560: `insert(-1, ...)` puts the number, then `ghost`,
      before the last part. */
  function NamedParts(base: seq<string>, f: string, isGhost: bool): (named: seq<string>)
    requires |base| >= 1
    ensures named == base[..|base| - 1] + [f] + (if isGhost then ["ghost"] else []) + [base[|base| - 1]]
  {
    var parts := Insert(base, -1, f);
    assert parts == base[..|base| - 1] + [f] + [base[|base| - 1]];
    if isGhost then
      assert parts[..|parts| - 1] == base[..|base| - 1] + [f];
      Insert(parts, -1, "ghost")
    else parts
  }

  /** Joining dot-free parts with dots and splitting again gives them back. */
  lemma NamedPartsSplit(base: seq<string>, f: string, isGhost: bool)
    requires |base| >= 1 && (forall i :: 0 <= i < |base| ==> '.' !in base[i]) && '.' !in f
    ensures Split(Join(NamedParts(base, f, isGhost), '.'), '.') == NamedParts(base, f, isGhost)
  {
    var named := NamedParts(base, f, isGhost);
    forall i | 0 <= i < |named| ensures '.' !in named[i] {
      if i < |base| - 1 {
        assert named[i] == base[i];
      } else if isGhost && i == |base| {
        assert named[i] == "ghost" && "ghost"[0] == 'g';
      }
    }
    SplitJoin(named, '.');
  }

  /** Line 568: a name without its last dotted part. */
  function LabelOf(name: string): (stemLabel: string)
    ensures var parts := Split(name, '.');
      |parts| >= 2 ==> Split(stemLabel, '.') == parts[..|parts| - 1]
    ensures |Split(name, '.')| == 1 ==> stemLabel == ""
  {
    var parts := Split(name, '.');
    var kept := parts[..|parts| - 1];
    if |kept| >= 1 then
      assert forall i :: 0 <= i < |kept| ==> '.' !in kept[i] by {
        forall i | 0 <= i < |kept| ensures '.' !in kept[i] { assert kept[i] == parts[i]; }
      }
      SplitJoin(kept, '.');
      Join(kept, '.')
    else Join(kept, '.')
  }

  /** Line 569: `'    %d %d %s' % (species_number, atomic_number, label)`. */
  function ChemicalSpeciesLine(number: int, atomicNumber: int, speciesLabel: string): string
  {
    "    " + FormatInt(number) + " " + FormatInt(atomicNumber) + " " + speciesLabel
  }

  /** What one specie contributes: its `ChemicalSpeciesLabel` line, its basis
      entry (an explicit PAO block, whose script this model does not render,
      or a named size) and the link from its name to the file, when one is
      made. */
  datatype BasisEntry = PaoEntry(speciesLabel: string, block: string) | SizeEntry(speciesLabel: string, size: string)
  datatype SpecieEntry = SpecieEntry(line: string, basis: BasisEntry, link: Option<(string, string)>)

  /** The entries of all species, with the lists `_write_species` builds. */
  datatype SpeciesBlock = SpeciesBlock(
    chemicalLabels: seq<string>,
    paoBasis: seq<BasisEntry>,
    basisSizes: seq<BasisEntry>,
    links: seq<(string, string)>)

  /** The environment `_write_species` consults: the files that exist,
      the current directory and `ase.data.atomic_numbers`. */
  datatype Environment = Environment(existing: set<string>, cwd: string, atomicNumbers: map<string, int>)

  /** One pass of the loop of lines 531-574, for the specie at position
      `number - 1` of the list. */
  function Entry(specie: Specie, number: int, qualifier: string, directory: string, env: Environment)
    : (r: Result<SpecieEntry, PseudoError>)
    ensures r.Success? <==> specie.symbol in env.atomicNumbers && Locate(PseudoFile(specie, qualifier), directory) in env.existing
    ensures specie.symbol !in env.atomicNumbers ==> r == Failure(UnknownSymbol(specie.symbol))
    ensures var path := Locate(PseudoFile(specie, qualifier), directory);
      specie.symbol in env.atomicNumbers && path !in env.existing ==> r == Failure(PseudoNotFound(path))
    ensures r.Success? ==>
      var path := Locate(PseudoFile(specie, qualifier), directory);
      var name := LinkName(path, number, specie.isGhost);
      var z := env.atomicNumbers[specie.symbol];
      && r.value.line == ChemicalSpeciesLine(number, if specie.isGhost then -z else z, LabelOf(name))
      && r.value.basis == (if specie.basis.PaoBasisBlock? then PaoEntry(LabelOf(name), specie.basis.block)
                           else SizeEntry(LabelOf(name), specie.basis.name))
      && r.value.link == (if PathJoin(env.cwd, name) != path then Some((name, path)) else None)
  {
    if specie.symbol !in env.atomicNumbers then Failure(UnknownSymbol(specie.symbol))
    else
      var path := Locate(PseudoFile(specie, qualifier), directory);
      if path !in env.existing then Failure(PseudoNotFound(path))
      else
        var z := env.atomicNumbers[specie.symbol];
        var name := LinkName(path, number, specie.isGhost);
        var speciesLabel := LabelOf(name);
        var line := ChemicalSpeciesLine(number, if specie.isGhost then -z else z, speciesLabel);
        var basis := match specie.basis
          case PaoBasisBlock(block) => PaoEntry(speciesLabel, block)
          case BasisName(size) => SizeEntry(speciesLabel, size);
        Success(SpecieEntry(line, basis, if PathJoin(env.cwd, name) != path then Some((name, path)) else None))
  }

  /** The lists after the loop has seen `species`, numbering them 1, 2, ...
      by position; the first failing specie stops it. */
  function Block(species: seq<Specie>, qualifier: string, directory: string, env: Environment)
    : (r: Result<SpeciesBlock, PseudoError>)
    ensures r.Success? ==> |r.value.chemicalLabels| == |species|
    ensures r.Success? ==> |r.value.paoBasis| + |r.value.basisSizes| == |species|
  {
    if |species| == 0 then Success(SpeciesBlock([], [], [], []))
    else
      var init := Block(species[..|species| - 1], qualifier, directory, env);
      if init.Failure? then init
      else
        var e := Entry(species[|species| - 1], |species|, qualifier, directory, env);
        if e.Failure? then Failure(e.error)
        else Success(Append(init.value, e.value))
  }

  /** One entry added to the lists. */
  function Append(b: SpeciesBlock, e: SpecieEntry): SpeciesBlock
  {
    SpeciesBlock(
      b.chemicalLabels + [e.line],
      if e.basis.PaoEntry? then b.paoBasis + [e.basis] else b.paoBasis,
      if e.basis.SizeEntry? then b.basisSizes + [e.basis] else b.basisSizes,
      if e.link.Some? then b.links + [e.link.value] else b.links)
  }

  /** `_write_species` from line 518 on: the directory, then the loop. */
  method WriteSpecies(species: seq<Specie>, qualifier: string, pseudoPath: Option<string>,
                      environment: Option<string>, env: Environment)
    returns (r: Result<SpeciesBlock, PseudoError>)
    ensures var dir := PseudoDirectory(pseudoPath, environment);
      r == if dir.Failure? then Failure(dir.error) else Block(species, qualifier, dir.value, env)
  {
    var dir := PseudoDirectory(pseudoPath, environment);
    if dir.Failure? {
      return Failure(dir.error);
    }
    var directory := dir.value;
    var chemicalLabels: seq<string> := [];
    var paoBasis: seq<BasisEntry> := [];
    var basisSizes: seq<BasisEntry> := [];
    var links: seq<(string, string)> := [];
    ghost var block := SpeciesBlock([], [], [], []);
    var k := 0;
    while k < |species|
      invariant 0 <= k <= |species|
      invariant Block(species[..k], qualifier, directory, env) == Success(block)
      invariant block == SpeciesBlock(chemicalLabels, paoBasis, basisSizes, links)
    {
      var speciesNumber := k + 1;
      var e := Entry(species[k], speciesNumber, qualifier, directory, env);
      if e.Failure? {
        BlockSnoc(species, k, qualifier, directory, env);
        PrefixFailure(species, k + 1, qualifier, directory, env);
        return Failure(e.error);
      }
      BlockStep(species, k, qualifier, directory, env, block, e.value);
      block := Append(block, e.value);
      chemicalLabels := chemicalLabels + [e.value.line];
      if e.value.basis.PaoEntry? {
        paoBasis := paoBasis + [e.value.basis];
      } else {
        basisSizes := basisSizes + [e.value.basis];
      }
      if e.value.link.Some? {
        links := links + [e.value.link.value];
      }
      k := k + 1;
    }
    assert species[..k] == species;
    r := Success(SpeciesBlock(chemicalLabels, paoBasis, basisSizes, links));
  }

  /** One more pass of the loop: the lists of the first `k` species with
      the entry of specie `k` appended, or that entry's failure. */
  lemma BlockSnoc(species: seq<Specie>, k: nat, qualifier: string, directory: string, env: Environment)
    requires k < |species|
    ensures var init := Block(species[..k], qualifier, directory, env);
      var e := Entry(species[k], k + 1, qualifier, directory, env);
      Block(species[..k + 1], qualifier, directory, env)
        == if init.Failure? then init else if e.Failure? then Failure(e.error) else Success(Append(init.value, e.value))
  {
    assert species[..k + 1][..k] == species[..k];
  }

  /** A successful pass of the loop appends the specie's entry. */
  lemma BlockStep(species: seq<Specie>, k: nat, qualifier: string, directory: string, env: Environment,
                  b: SpeciesBlock, e: SpecieEntry)
    requires k < |species|
    requires Block(species[..k], qualifier, directory, env) == Success(b)
    requires Entry(species[k], k + 1, qualifier, directory, env) == Success(e)
    ensures Block(species[..k + 1], qualifier, directory, env) == Success(Append(b, e))
  {
    BlockSnoc(species, k, qualifier, directory, env);
  }

  /** A failure of the loop on a prefix is the failure of the whole loop. */
  lemma {:induction false} PrefixFailure(species: seq<Specie>, k: nat, qualifier: string, directory: string, env: Environment)
    requires k <= |species|
    requires Block(species[..k], qualifier, directory, env).Failure?
    ensures Block(species, qualifier, directory, env) == Block(species[..k], qualifier, directory, env)
    decreases |species| - k
  {
    if k < |species| {
      assert species[..k + 1][..k] == species[..k];
      PrefixFailure(species, k + 1, qualifier, directory, env);
    } else {
      assert species[..k] == species;
    }
  }

  // ---------------------------------------------------------------------
  // Properties of the names
  // ---------------------------------------------------------------------

  /** The dotted parts of a link name, for a base name `stem.ext`. */
  lemma {:induction false} LinkParts(path: string, stem: string, ext: string, number: int, isGhost: bool)
    requires Basename(path) == stem + "." + ext && '.' !in ext
    ensures var sp := Split(stem, '.');
      LinkName(path, number, isGhost)
        == Join(if isGhost then sp + [FormatInt(number), "ghost", ext] else sp + [FormatInt(number), ext], '.')
  {
    var sp := Split(stem, '.');
    assert stem + "." + ext == stem + ['.'] + ext;
    SplitLast(stem, ext, '.');
    var f := FormatInt(number);
    assert Split(Basename(path), '.') == sp + [ext];
    NamedPartsBeforeExtension(sp, f, ext, isGhost);
  }

  lemma NamedPartsBeforeExtension(sp: seq<string>, f: string, ext: string, isGhost: bool)
    ensures NamedParts(sp + [ext], f, isGhost) == if isGhost then sp + [f, "ghost", ext] else sp + [f, ext]
  {
    var parts := sp + [ext];
    assert parts[..|parts| - 1] == sp && parts[|parts| - 1] == ext;
  }

  lemma JoinSnoc2(parts: seq<string>, x: string, y: string, sep: char)
    requires |parts| >= 1
    ensures Join(parts + [x, y], sep) == Join(parts, sep) + [sep] + x + [sep] + y
  {
    assert parts + [x, y] == (parts + [x]) + [y];
    JoinSnoc(parts + [x], y, sep);
    JoinSnoc(parts, x, sep);
  }

  /** Dropping the last dotted part of joined dot-free parts. */
  lemma LabelOfJoin(parts: seq<string>, last: string)
    requires |parts| >= 1 && '.' !in last
    requires forall i :: 0 <= i < |parts| ==> '.' !in parts[i]
    ensures LabelOf(Join(parts + [last], '.')) == Join(parts, '.')
  {
    SplitJoin(parts + [last], '.');
    assert (parts + [last])[..|parts|] == parts;
  }

  lemma DotParts(stem: string, number: int)
    ensures var sp := Split(stem, '.');
      && |sp| >= 1 && Join(sp, '.') == stem && '.' !in FormatInt(number)
      && (forall i :: 0 <= i < |sp| ==> '.' !in sp[i])
      && Join(sp + [FormatInt(number)], '.') == stem + "." + FormatInt(number)
  {
    JoinSplit(stem, '.');
    FormatIntNoDot(number);
    JoinSnoc(Split(stem, '.'), FormatInt(number), '.');
  }

  lemma PlainLinkName(path: string, stem: string, ext: string, number: int)
    requires Basename(path) == stem + "." + ext && '.' !in ext
    ensures LinkName(path, number, false) == stem + "." + FormatInt(number) + "." + ext
    ensures LabelOf(LinkName(path, number, false)) == stem + "." + FormatInt(number)
  {
    var sp, f := Split(stem, '.'), FormatInt(number);
    LinkParts(path, stem, ext, number, false);
    DotParts(stem, number);
    assert sp + [f, ext] == (sp + [f]) + [ext];
    JoinSnoc(sp + [f], ext, '.');
    LabelOfJoin(sp + [f], ext);
  }

  /** `ghost` holds no dot. These three small facts are lemmas of their
      own so that `GhostJoin` proves them without its joins in scope. */
  lemma GhostHasNoDot()
    ensures '.' !in "ghost"
  {
  }

  /** The dotted suffixes of a ghost label and link name. */
  lemma GhostSuffixes(joined: string, ext: string)
    ensures joined + ['.'] + "ghost" == joined + ".ghost"
    ensures joined + ".ghost" + ['.'] + ext == joined + ".ghost." + ext
  {
  }

  lemma SnocPair<T>(s: seq<T>, a: T, b: T)
    ensures s + [a, b] == s + [a] + [b]
  {
  }

  /** Joining dot-free parts followed by `ghost` and an extension. */
  lemma GhostJoin(parts: seq<string>, joined: string, ext: string)
    requires |parts| >= 1 && Join(parts, '.') == joined && '.' !in ext
    requires forall i :: 0 <= i < |parts| ==> '.' !in parts[i]
    ensures Join(parts + ["ghost", ext], '.') == joined + ".ghost." + ext
    ensures LabelOf(Join(parts + ["ghost", ext], '.')) == joined + ".ghost"
  {
    var withGhost := parts + ["ghost"];
    var stemLabel := joined + ".ghost";
    SnocPair(parts, "ghost", ext);
    JoinSnoc(parts, "ghost", '.');
    GhostSuffixes(joined, ext);
    JoinSnoc(withGhost, ext, '.');
    GhostHasNoDot();
    assert forall i :: 0 <= i < |withGhost| ==> '.' !in withGhost[i];
    LabelOfJoin(withGhost, ext);
  }

  lemma GhostLinkName(path: string, stem: string, ext: string, number: int)
    requires Basename(path) == stem + "." + ext && '.' !in ext
    ensures LinkName(path, number, true) == stem + "." + FormatInt(number) + ".ghost." + ext
    ensures LabelOf(LinkName(path, number, true)) == stem + "." + FormatInt(number) + ".ghost"
  {
    var sp, f := Split(stem, '.'), FormatInt(number);
    LinkParts(path, stem, ext, number, true);
    DotParts(stem, number);
    var parts := sp + [f];
    assert sp + [f, "ghost", ext] == parts + ["ghost", ext];
    assert forall i :: 0 <= i < |parts| ==> '.' !in parts[i];
    GhostJoin(parts, stem + "." + f, ext);
  }

  /** Lines 555-561 and 568 for a base name `stem.ext`: the link name is
      `stem.n.ext` (`stem.n.ghost.ext` for a ghost) and the label drops the
      extension. */
  lemma LinkNameOfDottedFile(path: string, stem: string, ext: string, number: int, isGhost: bool)
    requires Basename(path) == stem + "." + ext && '.' !in ext
    ensures !isGhost ==> LinkName(path, number, isGhost) == stem + "." + FormatInt(number) + "." + ext
    ensures isGhost ==> LinkName(path, number, isGhost) == stem + "." + FormatInt(number) + ".ghost." + ext
    ensures !isGhost ==> LabelOf(LinkName(path, number, isGhost)) == stem + "." + FormatInt(number)
    ensures isGhost ==> LabelOf(LinkName(path, number, isGhost)) == stem + "." + FormatInt(number) + ".ghost"
  {
    if isGhost {
      GhostLinkName(path, stem, ext, number);
    } else {
      PlainLinkName(path, stem, ext, number);
    }
  }

  /** The last dotted parts of a label: the number, then `ghost` for a ghost. */
  lemma {:induction false} LabelTail(path: string, stem: string, ext: string, number: int, isGhost: bool)
    requires Basename(path) == stem + "." + ext && '.' !in ext
    ensures EndsWithNumber(Split(LabelOf(LinkName(path, number, isGhost)), '.'), FormatInt(number), isGhost)
  {
    LinkNameOfDottedFile(path, stem, ext, number, isGhost);
    FormatIntNoDot(number);
    var f := FormatInt(number);
    var stemLabel := LabelOf(LinkName(path, number, isGhost));
    assert stemLabel == stem + "." + f + (if isGhost then ".ghost" else "");
    LabelEndsWithNumber(stem, f, isGhost);
  }

  /** Splitting `stem.f` (`stem.f.ghost` for a ghost) ends with those parts. */
  lemma LabelEndsWithNumber(stem: string, f: string, isGhost: bool)
    requires '.' !in f
    ensures EndsWithNumber(Split(stem + "." + f + (if isGhost then ".ghost" else ""), '.'), f, isGhost)
  {
    if isGhost {
      assert stem + "." + f + ".ghost" == (stem + ['.'] + f) + ['.'] + "ghost";
      assert '.' !in "ghost" by { assert "ghost"[0] == 'g'; }
      SplitLast(stem + ['.'] + f, "ghost", '.');
      SplitLast(stem, f, '.');
    } else {
      assert stem + "." + f + "" == stem + ['.'] + f;
      SplitLast(stem, f, '.');
    }
  }

  /** Species with different numbers get different labels, whatever their
      files: the number inserted before the extension keeps the labels of
      species sharing one pseudopotential file apart. */
  lemma DistinctNumbersDistinctLabels(
    path1: string, stem1: string, ext1: string, n1: int, ghost1: bool,
    path2: string, stem2: string, ext2: string, n2: int, ghost2: bool)
    requires Basename(path1) == stem1 + "." + ext1 && '.' !in ext1
    requires Basename(path2) == stem2 + "." + ext2 && '.' !in ext2
    requires n1 != n2
    ensures LabelOf(LinkName(path1, n1, ghost1)) != LabelOf(LinkName(path2, n2, ghost2))
  {
    LabelTail(path1, stem1, ext1, n1, ghost1);
    LabelTail(path2, stem2, ext2, n2, ghost2);
    FormatIntInjective(n1, n2);
    FormatIntNotGhost(n1);
    FormatIntNotGhost(n2);
    DistinctTails(Split(LabelOf(LinkName(path1, n1, ghost1)), '.'), FormatInt(n1), ghost1,
                  Split(LabelOf(LinkName(path2, n2, ghost2)), '.'), FormatInt(n2), ghost2);
  }

  /** The dotted parts of a label end with its number, then `ghost` for a ghost. */
  ghost predicate EndsWithNumber(ps: seq<string>, f: string, isGhost: bool)
  {
    if isGhost then |ps| >= 2 && ps[|ps| - 1] == "ghost" && ps[|ps| - 2] == f
    else |ps| >= 1 && ps[|ps| - 1] == f
  }

  /** Part lists ending with different numbers, neither of them `ghost`, differ. */
  lemma DistinctTails(ps1: seq<string>, f1: string, g1: bool, ps2: seq<string>, f2: string, g2: bool)
    requires f1 != f2 && f1 != "ghost" && f2 != "ghost"
    requires EndsWithNumber(ps1, f1, g1) && EndsWithNumber(ps2, f2, g2)
    ensures ps1 != ps2
  {
    if g1 && g2 {
      assert ps1[|ps1| - 2] != ps2[|ps2| - 2];
    } else {
      assert ps1[|ps1| - 1] != ps2[|ps2| - 1];
    }
  }

  /** A formatted integer is never the word `ghost`. */
  lemma FormatIntNotGhost(n: int)
    ensures FormatInt(n) != "ghost"
  {
    FormatIntNoDot(n);
    assert "ghost"[0] == 'g';
  }

  /** A specie without a file of its own is looked for as
      `directory/symbol.qualifier.psf` and linked as
      `symbol.qualifier.n.psf`. */
  lemma DefaultFileLinkName(specie: Specie, qualifier: string, directory: string, number: int)
    requires specie.pseudopotential.None? && qualifier != ""
    requires '/' !in specie.symbol && '/' !in qualifier
    ensures var path := Locate(PseudoFile(specie, qualifier), directory);
      && path == PathJoin(directory, specie.symbol + "." + qualifier + ".psf")
      && LinkName(path, number, false) == specie.symbol + "." + qualifier + "." + FormatInt(number) + ".psf"
  {
    var stem := specie.symbol + "." + qualifier;
    assert stem + "." + "psf" == specie.symbol + "." + qualifier + ".psf";
    LocatedLink(PseudoFile(specie, qualifier), directory, stem, "psf", number);
  }

  /** With an empty qualifier the file is `directory/symbol.psf`, linked as
      `symbol.n.psf`. */
  lemma UnqualifiedFileLinkName(specie: Specie, directory: string, number: int)
    requires specie.pseudopotential.None? && '/' !in specie.symbol
    ensures var path := Locate(PseudoFile(specie, ""), directory);
      && path == PathJoin(directory, specie.symbol + ".psf")
      && LinkName(path, number, false) == specie.symbol + "." + FormatInt(number) + ".psf"
  {
    assert specie.symbol + "." + "psf" == specie.symbol + ".psf";
    LocatedLink(PseudoFile(specie, ""), directory, specie.symbol, "psf", number);
  }

  /** A file name `stem.ext` without a slash is looked for in the directory
      and linked as `stem.n.ext`. */
  lemma LocatedLink(file: string, directory: string, stem: string, ext: string, number: int)
    requires file == stem + "." + ext && '.' !in ext && '/' !in file
    ensures Locate(file, directory) == PathJoin(directory, file)
    ensures LinkName(Locate(file, directory), number, false) == stem + "." + FormatInt(number) + "." + ext
  {
    assert !IsAbs(file) by {
      if |file| > 0 {
        assert file[0] in file;
      }
    }
    LinkNameOfDottedFile(Locate(file, directory), stem, ext, number, false);
  }

  /** A base name without a dot: the number is inserted before the only part,
      so `Hpsf` is linked as `2.Hpsf` and labelled `2`. */
  lemma UndottedFileName()
    ensures LinkName("/pseudo/Hpsf", 2, false) == "2.Hpsf"
    ensures LabelOf("2.Hpsf") == "2"
  {
    assert "/pseudo/Hpsf" == "/pseudo/" + "Hpsf";
    BasenameAfterSlash("/pseudo/", "Hpsf");
    assert FormatInt(2) == "2";
    UndottedLink("/pseudo/Hpsf", "Hpsf", 2);
  }

  /** A base name without a dot is linked as `n.base` and labelled `n`. */
  lemma UndottedLink(path: string, base: string, number: int)
    requires Basename(path) == base && '.' !in base
    ensures LinkName(path, number, false) == FormatInt(number) + "." + base
    ensures LabelOf(FormatInt(number) + "." + base) == FormatInt(number)
  {
    var f := FormatInt(number);
    FormatIntNoDot(number);
    SplitPrefix(base, [], '.');
    assert base + [] == base;
    assert Split(base, '.') == [base];
    assert NamedParts([base], f, false) == [f, base];
    JoinSnoc([f], base, '.');
    assert [f] + [base] == [f, base];
    assert f + "." + base == f + ['.'] + base;
    LabelOfJoin([f], base);
  }

  /** The `ChemicalSpeciesLabel` line reads back as the number, the
      atomic number (negative for a ghost) and the label. */
  lemma ChemicalSpeciesLineRoundTrip(number: int, atomicNumber: int, speciesLabel: string)
    requires IsWord(speciesLabel)
    ensures var ws := Words(ChemicalSpeciesLine(number, atomicNumber, speciesLabel));
      |ws| == 3 && ParseInt(ws[0]) == Some(number) && ParseInt(ws[1]) == Some(atomicNumber) && ws[2] == speciesLabel
  {
    var a, b := FormatInt(number), FormatInt(atomicNumber);
    IndentedThreeWords(a, b, speciesLabel);
    ParseFormatInt(number);
    ParseFormatInt(atomicNumber);
  }

  /** Four spaces, then three words separated by single spaces. */
  lemma IndentedThreeWords(a: string, b: string, c: string)
    requires IsWord(a) && IsWord(b) && IsWord(c)
    ensures Words("    " + a + " " + b + " " + c) == [a, b, c]
  {
    var tail := b + " " + c;
    assert "    " + a + " " + b + " " + c == "    " + (a + " " + tail);
    WordsSkipSpace("    ", a + " " + tail);
    WordsSpaced(a, tail);
    WordsSpaced(b, c);
    WordsSingle(c);
  }

  /** A `ChemicalSpeciesLabel` line read back: three tokens, the first
      two the species number and the atomic number. */
  predicate ReadsAs(line: string, number: int, atomicNumber: int)
  {
    var ws := Words(line);
    |ws| == 3 && ParseInt(ws[0]) == Some(number) && ParseInt(ws[1]) == Some(atomicNumber)
  }

  /** A ghost specie is written with the negated atomic number. */
  lemma GhostNegatesAtomicNumber(specie: Specie, number: int, qualifier: string, directory: string, env: Environment)
    requires Entry(specie, number, qualifier, directory, env).Success?
    requires IsWord(LabelOf(LinkName(Locate(PseudoFile(specie, qualifier), directory), number, specie.isGhost)))
    ensures specie.symbol in env.atomicNumbers
    ensures ReadsAs(Entry(specie, number, qualifier, directory, env).value.line, number,
                    if specie.isGhost then -env.atomicNumbers[specie.symbol] else env.atomicNumbers[specie.symbol])
  {
    var z := env.atomicNumbers[specie.symbol];
    var speciesLabel := LabelOf(LinkName(Locate(PseudoFile(specie, qualifier), directory), number, specie.isGhost));
    ChemicalSpeciesLineRoundTrip(number, if specie.isGhost then -z else z, speciesLabel);
  }

  /** Every specie is written, numbered by its position in the list. */
  lemma {:induction false} BlockNumbersByPosition(species: seq<Specie>, qualifier: string, directory: string, env: Environment, k: nat)
    requires Block(species, qualifier, directory, env).Success?
    requires k < |species|
    ensures Entry(species[k], k + 1, qualifier, directory, env).Success?
    ensures Block(species, qualifier, directory, env).value.chemicalLabels[k]
         == Entry(species[k], k + 1, qualifier, directory, env).value.line
  {
    var init := species[..|species| - 1];
    if k < |species| - 1 {
      assert init[k] == species[k];
      BlockPrefixLabel(species, qualifier, directory, env, k);
      BlockNumbersByPosition(init, qualifier, directory, env, k);
    } else {
      assert k + 1 == |species| && species[k] == species[|species| - 1];
      BlockLastLabel(species, qualifier, directory, env);
    }
  }

  /** The labels of a written list start with those of its prefix. */
  lemma BlockPrefixLabel(species: seq<Specie>, qualifier: string, directory: string, env: Environment, k: nat)
    requires Block(species, qualifier, directory, env).Success? && k < |species| - 1
    ensures Block(species[..|species| - 1], qualifier, directory, env).Success?
    ensures Block(species, qualifier, directory, env).value.chemicalLabels[k]
         == Block(species[..|species| - 1], qualifier, directory, env).value.chemicalLabels[k]
  {
    BlockLast(species, qualifier, directory, env);
  }

  /** The last label of a written list is its last specie's line. */
  lemma BlockLastLabel(species: seq<Specie>, qualifier: string, directory: string, env: Environment)
    requires |species| >= 1 && Block(species, qualifier, directory, env).Success?
    ensures Entry(species[|species| - 1], |species|, qualifier, directory, env).Success?
    ensures Block(species, qualifier, directory, env).value.chemicalLabels[|species| - 1]
         == Entry(species[|species| - 1], |species|, qualifier, directory, env).value.line
  {
    BlockLast(species, qualifier, directory, env);
  }

  /** A written list is its prefix written, then the entry of its last specie. */
  lemma BlockLast(species: seq<Specie>, qualifier: string, directory: string, env: Environment)
    requires |species| >= 1 && Block(species, qualifier, directory, env).Success?
    ensures var init := Block(species[..|species| - 1], qualifier, directory, env);
      var e := Entry(species[|species| - 1], |species|, qualifier, directory, env);
      && init.Success? && e.Success?
      && Block(species, qualifier, directory, env).value.chemicalLabels == init.value.chemicalLabels + [e.value.line]
  {
  }
}
