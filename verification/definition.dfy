/**
 Construction of the merge-conflict definition: the SOURCE and SINK
 definitions maps plus the set of target classes handed to the analysis.
 */
module Definition {
  import opened Changes
  import opened Registry

  /** The pair of definitions maps together with the classes to analyse. */
  datatype ChangeRegistry = ChangeRegistry(sourceDefs: Defs, sinkDefs: Defs, targetClasses: set<string>)

  const Empty := ChangeRegistry(map[], map[], {})

  /**
   One iteration of the change-list loop: a SOURCE change goes to the
   source map only, any other change to the sink map only, and the class
   becomes a target either way.
   */
  function Step(reg: ChangeRegistry, change: ClassChange): (r: ChangeRegistry)
    ensures r.targetClasses == reg.targetClasses + {change.className}
    ensures change.kind == Source ==> r.sinkDefs == reg.sinkDefs
    ensures change.kind != Source ==> r.sourceDefs == reg.sourceDefs
    ensures var grown := if change.kind == Source then r.sourceDefs else r.sinkDefs;
            var before := if change.kind == Source then reg.sourceDefs else reg.sinkDefs;
            && grown.Keys == before.Keys + {change.className}
            && grown[change.className]
               == (if change.className in before then before[change.className] else []) + [change.lineNumber]
            && forall k :: k in before && k != change.className ==> grown[k] == before[k]
  {
    if change.kind == Source
    then ChangeRegistry(AddChange(reg.sourceDefs, change), reg.sinkDefs,
                        reg.targetClasses + {change.className})
    else ChangeRegistry(reg.sourceDefs, AddChange(reg.sinkDefs, change),
                        reg.targetClasses + {change.className})
  }

  /** Each iteration stores exactly one more line entry, in the map of the change's kind. */
  lemma StepAddsOneEntry(reg: ChangeRegistry, change: ClassChange)
    ensures change.kind == Source ==> Size(Step(reg, change).sourceDefs) == Size(reg.sourceDefs) + 1
    ensures change.kind != Source ==> Size(Step(reg, change).sinkDefs) == Size(reg.sinkDefs) + 1
  {
    if change.kind == Source {
      AddLineSize(reg.sourceDefs, change.className, change.lineNumber);
    } else {
      AddLineSize(reg.sinkDefs, change.className, change.lineNumber);
    }
  }

  /**
   The registry loadDefinition builds from a change list: the source map
   groups the SOURCE changes, the sink map groups all others, and the
   target classes are the classes of all changes.
   */
  function Load(changes: seq<ClassChange>): (r: ChangeRegistry)
    ensures r.sourceDefs == Group(SourceEntries(changes))
    ensures r.sinkDefs == Group(SinkEntries(changes))
    ensures r.targetClasses == ClassNames(changes)
  {
    if |changes| == 0 then Empty
    else
      var init := changes[..|changes| - 1];
      var last := changes[|changes| - 1];
      assert changes == init + [last];
      LoadStep(init, last, Load(init));
      Step(Load(init), last)
  }

  /** One loop iteration extends a correct registry for `changes` to one for `changes + [c]`. */
  lemma LoadStep(changes: seq<ClassChange>, c: ClassChange, reg: ChangeRegistry)
    requires reg.sourceDefs == Group(SourceEntries(changes))
    requires reg.sinkDefs == Group(SinkEntries(changes))
    requires reg.targetClasses == ClassNames(changes)
    ensures Step(reg, c).sourceDefs == Group(SourceEntries(changes + [c]))
    ensures Step(reg, c).sinkDefs == Group(SinkEntries(changes + [c]))
    ensures Step(reg, c).targetClasses == ClassNames(changes + [c])
  {
    SourceEntriesSnoc(changes, c);
    SinkEntriesSnoc(changes, c);
    ClassNamesSnoc(changes, c);
    var e := c.ToEntry();
    if c.kind == Source {
      var es := SourceEntries(changes);
      assert SourceEntries(changes + [c]) == es + [e];
      GroupSnoc(es, e);
      assert Group(es + [e]) == AddLine(Group(es), c.className, c.lineNumber);
      assert Step(reg, c).sourceDefs == AddLine(Group(es), c.className, c.lineNumber);
      assert SinkEntries(changes) + [] == SinkEntries(changes);
      assert SinkEntries(changes + [c]) == SinkEntries(changes);
    } else {
      var es := SinkEntries(changes);
      assert SinkEntries(changes + [c]) == es + [e];
      GroupSnoc(es, e);
      assert Group(es + [e]) == AddLine(Group(es), c.className, c.lineNumber);
      assert Step(reg, c).sinkDefs == AddLine(Group(es), c.className, c.lineNumber);
      assert SourceEntries(changes) + [] == SourceEntries(changes);
      assert SourceEntries(changes + [c]) == SourceEntries(changes);
    }
  }

  lemma LoadSnoc(changes: seq<ClassChange>, c: ClassChange)
    ensures Load(changes + [c]) == Step(Load(changes), c)
  {
    assert (changes + [c])[..|changes|] == changes;
  }

  /**
   loadDefinition as the loop it is: folding the changes one at a time
   from an empty registry.
   */
  method LoadDefinition(changes: seq<ClassChange>) returns (reg: ChangeRegistry)
    ensures reg.sourceDefs == Group(SourceEntries(changes))
    ensures reg.sinkDefs == Group(SinkEntries(changes))
    ensures reg.targetClasses == ClassNames(changes)
  {
    reg := Empty;
    var i := 0;
    while i < |changes|
      invariant 0 <= i <= |changes|
      invariant reg == Load(changes[..i])
    {
      TakeSnoc(changes, i);
      LoadSnoc(changes[..i], changes[i]);
      reg := Step(reg, changes[i]);
      i := i + 1;
    }
    assert changes[..i] == changes;
  }

  /**
   Routing by kind: a SOURCE change's line is recorded under its class in
   the source map, any other change's in the sink map, and every recorded
   line comes from a change of the matching kind.
   */
  lemma LoadRoutesByKind(changes: seq<ClassChange>, k: string, line: int)
    ensures (k in Load(changes).sourceDefs && line in Load(changes).sourceDefs[k])
            <==> ClassChange(k, line, Source) in changes
    ensures (k in Load(changes).sinkDefs && line in Load(changes).sinkDefs[k])
            <==> exists c :: c in changes && c.kind != Source && c.ToEntry() == Entry(k, line)
  {
    GroupMembership(SourceEntries(changes), k, line);
    GroupMembership(SinkEntries(changes), k, line);
    SourceEntriesMembership(changes, Entry(k, line));
    SinkEntriesMembership(changes, Entry(k, line));
    if ClassChange(k, line, Source) in changes {
      assert ClassChange(k, line, Source).ToEntry() == Entry(k, line);
    }
  }

  /** No change is lost or duplicated: the two maps hold one line entry per change. */
  lemma LoadCount(changes: seq<ClassChange>)
    ensures Size(Load(changes).sourceDefs) + Size(Load(changes).sinkDefs) == |changes|
  {
    GroupSize(SourceEntries(changes));
    GroupSize(SinkEntries(changes));
    SplitByKindCount(changes);
  }

  /** The target classes are exactly the classes that have a SOURCE or a SINK line. */
  lemma LoadTargetsAreDefinedClasses(changes: seq<ClassChange>)
    ensures Load(changes).targetClasses == Load(changes).sourceDefs.Keys + Load(changes).sinkDefs.Keys
  {
    SplitByKindClasses(changes);
  }

  /**
   Per class, the source map lists the lines of that class's SOURCE changes
   in input order, duplicates kept; the sink map likewise for the others.
   */
  lemma LoadKeepsOrder(changes: seq<ClassChange>, c: ClassChange)
    ensures c.kind == Source ==>
              Load(changes + [c]).sourceDefs[c.className]
              == (if c.className in Load(changes).sourceDefs
                  then Load(changes).sourceDefs[c.className] else []) + [c.lineNumber]
    ensures c.kind != Source ==>
              Load(changes + [c]).sinkDefs[c.className]
              == (if c.className in Load(changes).sinkDefs
                  then Load(changes).sinkDefs[c.className] else []) + [c.lineNumber]
  {
    var reg := Load(changes);
    var next := Load(changes + [c]);
    assert next == Step(reg, c) by {
      LoadSnoc(changes, c);
    }
    if c.kind == Source {
      AppendsAtEnd(reg.sourceDefs, c, next.sourceDefs);
    } else {
      AppendsAtEnd(reg.sinkDefs, c, next.sinkDefs);
    }
  }

  lemma AppendsAtEnd(defs: Defs, c: ClassChange, r: Defs)
    requires r == AddChange(defs, c)
    ensures r[c.className] == (if c.className in defs then defs[c.className] else []) + [c.lineNumber]
  {
  }

  /**
   One SOURCE line and one SINK line of the same class: each map gets that
   class with its single line, and the class is the only target.
   */
  lemma SourceThenSinkOfOneClass(k: string, sourceLine: int, sinkLine: int)
    ensures Load([ClassChange(k, sourceLine, Source), ClassChange(k, sinkLine, Sink)])
            == ChangeRegistry(map[k := [sourceLine]], map[k := [sinkLine]], {k})
  {
    var cs := [ClassChange(k, sourceLine, Source), ClassChange(k, sinkLine, Sink)];
    SourceThenSinkEntries(k, sourceLine, sinkLine);
    var reg := Load(cs);
    assert reg.sourceDefs == map[k := [sourceLine]] by {
      GroupSingleton(k, sourceLine);
    }
    assert reg.sinkDefs == map[k := [sinkLine]] by {
      GroupSingleton(k, sinkLine);
    }
    assert reg.targetClasses == {k} by {
      ClassNamesOfTwo(cs[0], cs[1]);
    }
  }

  lemma SourceThenSinkEntries(k: string, sourceLine: int, sinkLine: int)
    ensures var cs := [ClassChange(k, sourceLine, Source), ClassChange(k, sinkLine, Sink)];
            && SourceEntries(cs) == [Entry(k, sourceLine)]
            && SinkEntries(cs) == [Entry(k, sinkLine)]
  {
    var cs := [ClassChange(k, sourceLine, Source), ClassChange(k, sinkLine, Sink)];
    TwoChanges(cs[0], cs[1]);
  }

  lemma ClassNamesOfTwo(a: ClassChange, b: ClassChange)
    ensures ClassNames([a, b]) == {a.className, b.className}
  {
    assert forall x :: x in [a, b] <==> x == a || x == b;
  }

  /**
   Nothing rejects a (class, line) tagged with both kinds: it is recorded in
   both maps.
   */
  lemma OverlapIsAccepted(k: string, line: int)
    ensures var reg := Load([ClassChange(k, line, Source), ClassChange(k, line, Sink)]);
            && line in reg.sourceDefs[k]
            && line in reg.sinkDefs[k]
  {
    SourceThenSinkOfOneClass(k, line, line);
  }

  /** A repeated change keeps both copies of its line, in order. */
  lemma DuplicatesKept(k: string, line: int)
    ensures Load([ClassChange(k, line, Sink), ClassChange(k, line, Sink)]).sinkDefs == map[k := [line, line]]
  {
    var cs := [ClassChange(k, line, Sink), ClassChange(k, line, Sink)];
    var es := [Entry(k, line), Entry(k, line)];
    TwoChanges(cs[0], cs[1]);
    assert SinkEntries(cs) == es;
    GroupSingleClass(es, k);
    assert es[1..] == [Entry(k, line)];
    assert [Entry(k, line)][1..] == [];
    assert LinesOf([Entry(k, line)], k) == [line];
    assert LinesOf(es, k) == [line, line];
  }

  /** The entry lists a two-change input splits into. */
  lemma TwoChanges(a: ClassChange, b: ClassChange)
    ensures SourceEntries([a, b]) == (if a.kind == Source then [a.ToEntry()] else [])
                                     + (if b.kind == Source then [b.ToEntry()] else [])
    ensures SinkEntries([a, b]) == (if a.kind != Source then [a.ToEntry()] else [])
                                   + (if b.kind != Source then [b.ToEntry()] else [])
  {
    assert [a, b] == [a] + [b];
    assert [a] == [] + [a];
    SourceEntriesSnoc([], a);
    SinkEntriesSnoc([], a);
    SourceEntriesSnoc([a], b);
    SinkEntriesSnoc([a], b);
  }

  const SampleClass := "br.unb.cic.analysis.samples.IntraproceduralDataFlow"

  /**
   The registry of the zero-conflict data-flow test: one class, SOURCE
   line 19 and SINK line 26.
   */
  lemma ZeroConflictTestRegistry()
    ensures Load([ClassChange(SampleClass, 19, Source), ClassChange(SampleClass, 26, Sink)])
            == ChangeRegistry(map[SampleClass := [19]], map[SampleClass := [26]], {SampleClass})
  {
    SourceThenSinkOfOneClass(SampleClass, 19, 26);
  }

  /**
   loadDefinitionFromDiffAnalysis: the source entries are grouped into the
   source map, the sink entries into the sink map, and every class of
   either list becomes a target.
   */
  method LoadDefinitionFromDiffAnalysis(sourceClasses: seq<Entry>, sinkClasses: seq<Entry>)
    returns (reg: ChangeRegistry)
    ensures reg.sourceDefs.Keys == ClassesOf(sourceClasses)
    ensures forall k :: k in reg.sourceDefs ==> reg.sourceDefs[k] == LinesOf(sourceClasses, k)
    ensures reg.sinkDefs.Keys == ClassesOf(sinkClasses)
    ensures forall k :: k in reg.sinkDefs ==> reg.sinkDefs[k] == LinesOf(sinkClasses, k)
    ensures reg.targetClasses == ClassesOf(sourceClasses) + ClassesOf(sinkClasses)
    ensures reg.targetClasses == reg.sourceDefs.Keys + reg.sinkDefs.Keys
    ensures Size(reg.sourceDefs) == |sourceClasses| && Size(reg.sinkDefs) == |sinkClasses|
  {
    var sourceDefs: Defs := map[];
    var sinkDefs: Defs := map[];
    var targets: set<string> := {};
    var i := 0;
    while i < |sourceClasses|
      invariant 0 <= i <= |sourceClasses|
      invariant sourceDefs == Group(sourceClasses[..i])
      invariant targets == ClassesOf(sourceClasses[..i])
    {
      GroupPrefixStep(sourceClasses, i);
      ClassesOfPrefixStep(sourceClasses, i);
      sourceDefs := AddChangeFromDiffAnalysis(sourceDefs, sourceClasses[i]);
      targets := targets + {sourceClasses[i].className};
      i := i + 1;
    }
    assert sourceClasses[..i] == sourceClasses;
    var j := 0;
    while j < |sinkClasses|
      invariant 0 <= j <= |sinkClasses|
      invariant sinkDefs == Group(sinkClasses[..j])
      invariant targets == ClassesOf(sourceClasses) + ClassesOf(sinkClasses[..j])
    {
      GroupPrefixStep(sinkClasses, j);
      ClassesOfPrefixStep(sinkClasses, j);
      sinkDefs := AddChangeFromDiffAnalysis(sinkDefs, sinkClasses[j]);
      targets := targets + {sinkClasses[j].className};
      j := j + 1;
    }
    assert sinkClasses[..j] == sinkClasses;
    GroupSize(sourceClasses);
    GroupSize(sinkClasses);
    reg := ChangeRegistry(sourceDefs, sinkDefs, targets);
  }
}
