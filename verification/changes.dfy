/**
 Change records handed to the registry builder: the rows of the change list
 (ClassChangeDefinition) and the (class, line) entries of the diff extractor.
 */
module Changes {

  /** The kind a change is tagged with: one of the two merged change sets. */
  datatype ChangeType = Source | Sink

  /** One row of the change list: a changed line of a class and its kind. */
  datatype ClassChange = ClassChange(className: string, lineNumber: int, kind: ChangeType)
  {
    /** The (class, line) entry this change contributes to a registry map. */
    function ToEntry(): Entry
    {
      Entry(className, lineNumber)
    }
  }

  /** A (class name, line number) pair, the shape of a diff-extractor entry. */
  datatype Entry = Entry(className: string, line: int)

  /** Class names mentioned by a list of change records. */
  function ClassNames(cs: seq<ClassChange>): set<string>
  {
    set c | c in cs :: c.className
  }

  /** Class names mentioned by a list of entries. */
  function ClassesOf(es: seq<Entry>): set<string>
  {
    set e | e in es :: e.className
  }

  /** The entries of the SOURCE-tagged changes, in input order. */
  function SourceEntries(cs: seq<ClassChange>): seq<Entry>
  {
    if |cs| == 0 then []
    else SourceEntries(cs[..|cs| - 1])
         + (if cs[|cs| - 1].kind == Source then [cs[|cs| - 1].ToEntry()] else [])
  }

  /** The entries of every change that is not SOURCE-tagged, in input order. */
  function SinkEntries(cs: seq<ClassChange>): seq<Entry>
  {
    if |cs| == 0 then []
    else SinkEntries(cs[..|cs| - 1])
         + (if cs[|cs| - 1].kind != Source then [cs[|cs| - 1].ToEntry()] else [])
  }

  /** Growing a prefix by one element. */
  lemma TakeSnoc<T>(s: seq<T>, i: nat)
    requires i < |s|
    ensures s[..i + 1] == s[..i] + [s[i]]
  {
  }

  lemma ClassNamesSnoc(cs: seq<ClassChange>, c: ClassChange)
    ensures ClassNames(cs + [c]) == ClassNames(cs) + {c.className}
  {
    assert forall x :: x in cs + [c] <==> x in cs || x == c;
  }

  lemma SourceEntriesSnoc(cs: seq<ClassChange>, c: ClassChange)
    ensures SourceEntries(cs + [c]) == SourceEntries(cs) + (if c.kind == Source then [c.ToEntry()] else [])
  {
    assert (cs + [c])[..|cs|] == cs;
  }

  lemma SinkEntriesSnoc(cs: seq<ClassChange>, c: ClassChange)
    ensures SinkEntries(cs + [c]) == SinkEntries(cs) + (if c.kind != Source then [c.ToEntry()] else [])
  {
    assert (cs + [c])[..|cs|] == cs;
  }

  /** Splitting by kind neither loses nor invents a change. */
  lemma {:induction false} SplitByKindCount(cs: seq<ClassChange>)
    ensures |SourceEntries(cs)| + |SinkEntries(cs)| == |cs|
  {
    if |cs| > 0 {
      SplitByKindCount(cs[..|cs| - 1]);
    }
  }

  /** The classes of both halves of the split are exactly the classes of the input. */
  lemma {:induction false} SplitByKindClasses(cs: seq<ClassChange>)
    ensures ClassesOf(SourceEntries(cs)) + ClassesOf(SinkEntries(cs)) == ClassNames(cs)
  {
    if |cs| > 0 {
      var init := cs[..|cs| - 1];
      var last := cs[|cs| - 1];
      SplitByKindClasses(init);
      assert cs == init + [last];
      var extra := if last.kind == Source then [last.ToEntry()] else [];
      ClassesOfAppend(SourceEntries(init), extra);
      var extra' := if last.kind != Source then [last.ToEntry()] else [];
      ClassesOfAppend(SinkEntries(init), extra');
      assert ClassNames(cs) == ClassNames(init) + {last.className};
    }
  }

  lemma ClassesOfAppend(a: seq<Entry>, b: seq<Entry>)
    ensures ClassesOf(a + b) == ClassesOf(a) + ClassesOf(b)
  {
    assert forall e :: e in a + b <==> e in a || e in b;
  }

  /** A SOURCE-tagged change's entry is among the SOURCE entries, and only SOURCE changes are. */
  lemma {:induction false} SourceEntriesMembership(cs: seq<ClassChange>, e: Entry)
    ensures e in SourceEntries(cs) <==> exists c :: c in cs && c.kind == Source && c.ToEntry() == e
  {
    if |cs| > 0 {
      var init := cs[..|cs| - 1];
      SourceEntriesMembership(init, e);
      assert cs == init + [cs[|cs| - 1]];
    }
  }

  /** A change that is not SOURCE-tagged has its entry among the SINK entries, and only those do. */
  lemma {:induction false} SinkEntriesMembership(cs: seq<ClassChange>, e: Entry)
    ensures e in SinkEntries(cs) <==> exists c :: c in cs && c.kind != Source && c.ToEntry() == e
  {
    if |cs| > 0 {
      var init := cs[..|cs| - 1];
      SinkEntriesMembership(init, e);
      assert cs == init + [cs[|cs| - 1]];
    }
  }
}
