/**
 A definitions map (`sourceDefs` or `sinkDefs`): class name -> the changed
 lines of that class, in the order the changes arrived, duplicates kept.
 */
module Registry {
  import opened Changes

  type Defs = map<string, seq<int>>

  /** Append-or-create, shared by addChange and addChangeFromDiffAnalysis. */
  function AddLine(defs: Defs, className: string, line: int): (r: Defs)
    ensures r.Keys == defs.Keys + {className}
    ensures className in defs ==> r[className] == defs[className] + [line]
    ensures className !in defs ==> r[className] == [line]
    ensures forall k :: k in defs && k != className ==> r[k] == defs[k]
  {
    if className in defs then defs[className := defs[className] + [line]]
    else defs[className := [line]]
  }

  /** Record one change-list row under its class. */
  function AddChange(defs: Defs, change: ClassChange): (r: Defs)
    ensures r.Keys == defs.Keys + {change.className}
    ensures change.className in defs ==>
              r[change.className] == defs[change.className] + [change.lineNumber]
    ensures change.className !in defs ==> r[change.className] == [change.lineNumber]
    ensures forall k :: k in defs && k != change.className ==> r[k] == defs[k]
  {
    AddLine(defs, change.className, change.lineNumber)
  }

  /** Record one diff-extractor entry under its class. */
  function AddChangeFromDiffAnalysis(defs: Defs, change: Entry): (r: Defs)
    ensures r.Keys == defs.Keys + {change.className}
    ensures change.className in defs ==>
              r[change.className] == defs[change.className] + [change.line]
    ensures change.className !in defs ==> r[change.className] == [change.line]
    ensures forall k :: k in defs && k != change.className ==> r[k] == defs[k]
  {
    AddLine(defs, change.className, change.line)
  }

  /**
   Reference definition of a class's line list: the lines of the entries
   naming class k, in order, duplicates kept.
   */
  function LinesOf(es: seq<Entry>, k: string): seq<int>
  {
    if |es| == 0 then []
    else (if es[0].className == k then [es[0].line] else []) + LinesOf(es[1..], k)
  }

  lemma {:induction false} LinesOfSnoc(es: seq<Entry>, e: Entry, k: string)
    ensures LinesOf(es + [e], k) == LinesOf(es, k) + (if e.className == k then [e.line] else [])
  {
    if |es| == 0 {
      assert es + [e] == [e];
      assert [e][1..] == [];
    } else {
      assert (es + [e])[1..] == es[1..] + [e];
      LinesOfSnoc(es[1..], e, k);
    }
  }

  lemma {:induction false} LinesOfEmpty(es: seq<Entry>, k: string)
    ensures LinesOf(es, k) == [] <==> k !in ClassesOf(es)
  {
    if |es| > 0 {
      LinesOfEmpty(es[1..], k);
      assert es == [es[0]] + es[1..];
      assert ClassesOf(es) == {es[0].className} + ClassesOf(es[1..]);
    }
  }

  /**
   The registry a sequence of entries folds into (the loop over the entries
   calling addChangeFromDiffAnalysis): its keys are exactly the classes that
   occur, and each class maps to its own lines in input order.
   */
  function Group(es: seq<Entry>): (r: Defs)
    ensures r.Keys == ClassesOf(es)
    ensures forall k :: k in r ==> r[k] == LinesOf(es, k)
  {
    if |es| == 0 then map[]
    else
      var init := es[..|es| - 1];
      var last := es[|es| - 1];
      assert es == init + [last];
      GroupStep(init, last, Group(init));
      AddChangeFromDiffAnalysis(Group(init), last)
  }

  lemma GroupSnoc(es: seq<Entry>, e: Entry)
    ensures Group(es + [e]) == AddChangeFromDiffAnalysis(Group(es), e)
  {
    assert (es + [e])[..|es|] == es;
  }

  /** Entries that all name one class group into a single-key map. */
  lemma GroupSingleClass(es: seq<Entry>, k: string)
    requires |es| > 0
    requires forall i :: 0 <= i < |es| ==> es[i].className == k
    ensures Group(es) == map[k := LinesOf(es, k)]
  {
    assert es[0] in es;
    assert ClassesOf(es) == {k};
  }

  /** One iteration of a loop over the entries, stated on prefixes. */
  lemma GroupPrefixStep(es: seq<Entry>, i: nat)
    requires i < |es|
    ensures Group(es[..i + 1]) == AddChangeFromDiffAnalysis(Group(es[..i]), es[i])
  {
    var prefix := es[..i];
    var e := es[i];
    assert es[..i + 1] == prefix + [e] by {
      TakeSnoc(es, i);
    }
    GroupSnoc(prefix, e);
  }

  lemma ClassesOfPrefixStep(es: seq<Entry>, i: nat)
    requires i < |es|
    ensures ClassesOf(es[..i + 1]) == ClassesOf(es[..i]) + {es[i].className}
  {
    var prefix := es[..i];
    var e := es[i];
    assert es[..i + 1] == prefix + [e] by {
      TakeSnoc(es, i);
    }
    assert ClassesOf(prefix + [e]) == ClassesOf(prefix) + {e.className} by {
      ClassesOfAppend(prefix, [e]);
      assert ClassesOf([e]) == {e.className};
    }
  }

  /** A single entry groups into a one-key, one-line map. */
  lemma GroupSingleton(k: string, line: int)
    ensures Group([Entry(k, line)]) == map[k := [line]]
  {
    GroupSingleClass([Entry(k, line)], k);
    assert [Entry(k, line)][1..] == [];
  }

  /** One append-or-create step extends a correct grouping of `es` to one of `es + [e]`. */
  lemma GroupStep(es: seq<Entry>, e: Entry, g: Defs)
    requires g.Keys == ClassesOf(es)
    requires forall k :: k in g ==> g[k] == LinesOf(es, k)
    ensures AddChangeFromDiffAnalysis(g, e).Keys == ClassesOf(es + [e])
    ensures forall k :: k in AddChangeFromDiffAnalysis(g, e) ==>
              AddChangeFromDiffAnalysis(g, e)[k] == LinesOf(es + [e], k)
  {
    var r := AddChangeFromDiffAnalysis(g, e);
    ClassesOfAppend(es, [e]);
    assert ClassesOf([e]) == {e.className};
    LinesOfEmpty(es, e.className);
    forall k | k in r
      ensures r[k] == LinesOf(es + [e], k)
    {
      LinesOfSnoc(es, e, k);
    }
  }

  /** Total number of line entries stored in a definitions map. */
  ghost function Size(m: Defs): nat
    decreases m.Keys
  {
    if m == map[] then 0
    else
      var k :| k in m;
      assert (m - {k}).Keys < m.Keys;
      |m[k]| + Size(m - {k})
  }

  /** Size does not depend on which key is taken apart first. */
  lemma {:induction false} SizeRemove(m: Defs, k: string)
    requires k in m
    ensures Size(m) == |m[k]| + Size(m - {k})
    decreases m.Keys
  {
    var j :| j in m && Size(m) == |m[j]| + Size(m - {j});
    if j != k {
      assert (m - {j}).Keys < m.Keys;
      assert (m - {k}).Keys < m.Keys;
      SizeRemove(m - {j}, k);
      SizeRemove(m - {k}, j);
      assert m - {j} - {k} == m - {k} - {j};
    }
  }

  /** Each append-or-create step stores exactly one more line entry. */
  lemma AddLineSize(defs: Defs, className: string, line: int)
    ensures Size(AddLine(defs, className, line)) == Size(defs) + 1
  {
    var r := AddLine(defs, className, line);
    SizeRemove(r, className);
    if className in defs {
      SizeRemove(defs, className);
      assert r - {className} == defs - {className};
    } else {
      assert r - {className} == defs;
    }
  }

  /** Grouping keeps every entry: the registry holds as many lines as there were entries. */
  lemma {:induction false} GroupSize(es: seq<Entry>)
    ensures Size(Group(es)) == |es|
  {
    if |es| > 0 {
      var init := es[..|es| - 1];
      var last := es[|es| - 1];
      GroupSize(init);
      AddLineSize(Group(init), last.className, last.line);
    }
  }

  /** An entry's line is recorded under its class, and every recorded line comes from an entry. */
  lemma GroupMembership(es: seq<Entry>, k: string, line: int)
    ensures (k in Group(es) && line in Group(es)[k]) <==> Entry(k, line) in es
  {
    LinesOfMembership(es, k, line);
    LinesOfEmpty(es, k);
  }

  lemma {:induction false} LinesOfMembership(es: seq<Entry>, k: string, line: int)
    ensures line in LinesOf(es, k) <==> Entry(k, line) in es
  {
    if |es| > 0 {
      LinesOfMembership(es[1..], k, line);
      assert es == [es[0]] + es[1..];
    }
  }
}
