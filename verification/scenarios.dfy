/**
 Whole-file runs of the rule on small programs: the cases of
 src/tests/rules/no-unused-styles.test.ts and a few more that pin down
 the rule's conservative choices. Each program is given as the callbacks
 the walker makes on it, in document order, over arbitrary distinct names
 (the test file's `styles`, `container`, `unused`, `padding` are one
 instance); the localized message text is not modelled, only which names
 are reported and with which node.
 */
module Scenarios {
  import opened StyleAst
  import opened Extraction
  import opened SymbolTable

  /** `name: { ... }` inside the object passed to `StyleSheet.create`. */
  function Entry(name: string): Node
  {
    Property(Some(Identifier(name)), Some(ObjectExpression([])))
  }

  /** `const <sheet> = StyleSheet.create({ <entries> })`. */
  function Declare(sheet: string, entries: seq<Node>): Event
  {
    SheetDeclarator(BindingName(sheet), [ObjectExpression(entries)])
  }

  /** `<sheet>.<member>` */
  function Dot(sheet: string, member: string): Node
  {
    MemberExpression(Some(sheet), Some(Identifier(member)))
  }

  /** `style={<e>}` */
  function StyleAttribute(e: Node): Event
  {
    Attribute(PlainName("style"), Some(e))
  }

  /** `return <View style={...} />`: the returned JSX element extracts
      nothing itself; its attribute is visited next. */
  const ReturnJsx := Return(Some(Other))

  lemma Run3(a: Event, b: Event, c: Event)
    ensures Run(Empty, [a, b, c]) == Apply(Apply(Apply(Empty, a), b), c)
  {
    RunSnoc(Empty, [], a);
    RunSnoc(Empty, [a], b);
    RunSnoc(Empty, [a, b], c);
    assert [a] == [] + [a];
    assert [a, b] == [a] + [b];
    assert [a, b, c] == [a, b] + [c];
  }

  /** A three-callback file reports what the sweep finds in the table the
      three callbacks build, one after the other. */
  lemma AnalyzeThree(a: Event, b: Event, c: Event, t: Table)
    requires t == Apply(Apply(Apply(Empty, a), b), c)
    ensures WellFormed(t) && Analyze([a, b, c]) == Findings(t)
  {
    Run3(a, b, c);
  }

  /** The same for a two-callback file. */
  lemma AnalyzeTwo(a: Event, b: Event, t: Table)
    requires t == Apply(Apply(Empty, a), b)
    ensures WellFormed(t) && Analyze([a, b]) == Findings(t)
  {
    RunSnoc(Empty, [], a);
    RunSnoc(Empty, [a], b);
    assert [a] == [] + [a];
    assert [a, b] == [a] + [b];
  }

  /** Returning a JSX element marks nothing: the element itself extracts
      no name (its attributes are visited on their own). */
  lemma ReturnJsxKeeps(t: Table)
    ensures Apply(t, ReturnJsx) == t
  {
  }

  /** A `style` attribute marks what its expression extracts. */
  lemma StyleAttributeMarks(t: Table, e: Node)
    ensures Apply(t, StyleAttribute(e)) == MarkUsed(t, Extract(e, t.sheets))
  {
  }

  /** The names, bindings and member set of a style object with one entry. */
  lemma OneEntry(x: string)
    requires x != ""
    ensures StyleNames([Entry(x)]) == [x]
    ensures BindAll(map[], [Entry(x)]) == map[x := Entry(x)]
    ensures InsertAll([], [x]) == [x]
  {
  }

  /** The same for two entries with distinct names. */
  lemma TwoEntries(x: string, y: string)
    requires x != "" && y != "" && x != y
    ensures StyleNames([Entry(x), Entry(y)]) == [x, y]
    ensures BindAll(map[], [Entry(x), Entry(y)]) == map[x := Entry(x), y := Entry(y)]
    ensures InsertAll([], [x, y]) == [x, y]
  {
    OneEntry(x);
    assert [Entry(x), Entry(y)][..1] == [Entry(x)];
    assert [x, y][..1] == [x];
  }

  /** Declaring a sheet with one entry on a table with no definitions yet. */
  lemma DeclareOne(t: Table, sheet: string, x: string)
    requires t.order == [] && t.defined == map[]
    requires sheet != "" && x != ""
    ensures var t' := Apply(t, Declare(sheet, [Entry(x)]));
      && t'.order == [x]
      && t'.defined == map[x := Entry(x)]
      && t'.used == t.used
      && t'.sheets == t.sheets[sheet := [x]]
  {
    OneEntry(x);
    assert SheetProperties([ObjectExpression([Entry(x)])]) == [Entry(x)];
  }

  /** Declaring a sheet with two distinct entries on a table with no
      definitions yet. */
  lemma DeclareTwo(t: Table, sheet: string, x: string, y: string)
    requires t.order == [] && t.defined == map[]
    requires sheet != "" && x != "" && y != "" && x != y
    ensures var t' := Apply(t, Declare(sheet, [Entry(x), Entry(y)]));
      && t'.order == [x, y]
      && t'.defined == map[x := Entry(x), y := Entry(y)]
      && t'.used == t.used
      && t'.sheets == t.sheets[sheet := [x, y]]
  {
    TwoEntries(x, y);
    assert SheetProperties([ObjectExpression([Entry(x), Entry(y)])]) == [Entry(x), Entry(y)];
  }

  /** A component returning JSX whose `style` attribute holds `e`, before
      any sheet is declared: only the names `e` extracts on its own are
      marked. */
  lemma UseAfterReturn(e: Node, t: Table)
    requires t == Apply(Apply(Empty, ReturnJsx), StyleAttribute(e))
    ensures WellFormed(t) && t.order == [] && t.defined == map[] && t.sheets == map[]
    ensures forall x :: x in t.used <==> x in Extract(e, map[])
  {
    ReturnJsxKeeps(Empty);
    StyleAttributeMarks(Empty, e);
    UsageSpec(Empty, Extract(e, map[]));
  }

  /** Of two defined styles, only the second unused: one report, for it. */
  lemma SecondOfTwoReported(t: Table, x: string, y: string)
    requires WellFormed(t) && t.order == [x, y] && x in t.used && y !in t.used
    ensures Findings(t) == [Finding(y, t.defined[y])]
  {
    assert [x, y][..1] == [x] && [x][..0] == [];
    assert Unused([x], t.defined, t.used) == [];
  }

  /** The invalid case of src/tests/rules/no-unused-styles.test.ts:62-84:
      `container` is used through `styles.container`, `unused` is not. One
      report, for `unused`, carrying the property that defines it. */
  lemma UnusedStyleIsReported(sheet: string, used: string, unused: string)
    requires sheet != "" && used != "" && unused != "" && used != unused
    ensures Analyze([ReturnJsx, StyleAttribute(Dot(sheet, used)),
                     Declare(sheet, [Entry(used), Entry(unused)])])
         == [Finding(unused, Entry(unused))]
  {
    var a, b, c := ReturnJsx, StyleAttribute(Dot(sheet, used)), Declare(sheet, [Entry(used), Entry(unused)]);
    var t2 := Apply(Apply(Empty, a), b);
    UseAfterReturn(Dot(sheet, used), t2);
    ExtractMemberAccess(sheet, used, map[]);
    assert used in t2.used && unused !in t2.used;
    var t := Apply(t2, c);
    DeclareTwo(t2, sheet, used, unused);
    AnalyzeThree(a, b, c, t);
    assert t.order == [used, unused] && t.defined[unused] == Entry(unused);
    SecondOfTwoReported(t, used, unused);
  }

  /** The first valid case (src/tests/rules/no-unused-styles.test.ts:24-38):
      the only style is used. */
  lemma UsedStyleIsNotReported(sheet: string, used: string)
    requires sheet != "" && used != ""
    ensures Analyze([ReturnJsx, StyleAttribute(Dot(sheet, used)), Declare(sheet, [Entry(used)])]) == []
  {
    var a, b, c := ReturnJsx, StyleAttribute(Dot(sheet, used)), Declare(sheet, [Entry(used)]);
    var t2 := Apply(Apply(Empty, a), b);
    UseAfterReturn(Dot(sheet, used), t2);
    ExtractMemberAccess(sheet, used, map[]);
    var t := Apply(t2, c);
    DeclareOne(t2, sheet, used);
    AnalyzeThree(a, b, c, t);
    AllUsedNoFindings(t);
  }

  /** `[sheet.x, sheet.y]` extracts `x` then `y`. */
  lemma ArrayOfMembers(sheet: string, x: string, y: string, sheets: SheetMap)
    requires sheet != ""
    ensures Extract(ArrayExpression([Some(Dot(sheet, x)), Some(Dot(sheet, y))]), sheets) == [x, y]
  {
    ExtractMemberAccess(sheet, x, sheets);
    ExtractMemberAccess(sheet, y, sheets);
    var es := [Some(Dot(sheet, x)), Some(Dot(sheet, y))];
    assert es[..1] == [es[0]] && [es[0]][..0] == [];
    assert ExtractElements([es[0]], sheets) == [x];
    assert ExtractElements(es, sheets) == ExtractElements([es[0]], sheets) + ExtractOpt(es[1], sheets);
  }

  /** The second valid case (src/tests/rules/no-unused-styles.test.ts:41-57):
      both styles are used through `[styles.container, styles.padding]`. */
  lemma ArrayOfStylesIsNotReported(sheet: string, x: string, y: string)
    requires sheet != "" && x != "" && y != "" && x != y
    ensures Analyze([ReturnJsx,
                     StyleAttribute(ArrayExpression([Some(Dot(sheet, x)), Some(Dot(sheet, y))])),
                     Declare(sheet, [Entry(x), Entry(y)])]) == []
  {
    var elements := [Some(Dot(sheet, x)), Some(Dot(sheet, y))];
    var a, b, c := ReturnJsx, StyleAttribute(ArrayExpression(elements)), Declare(sheet, [Entry(x), Entry(y)]);
    var t2 := Apply(Apply(Empty, a), b);
    UseAfterReturn(ArrayExpression(elements), t2);
    ArrayOfMembers(sheet, x, y, map[]);
    var t := Apply(t2, c);
    DeclareTwo(t2, sheet, x, y);
    AnalyzeThree(a, b, c, t);
    AllUsedNoFindings(t);
  }

  /** `style={styles}` resolves `styles` when the attribute is visited: ahead
      of the declaration it marks nothing, so the sheet's style is reported. */
  lemma WholeSheetBeforeDeclarationIsReported(sheet: string, x: string)
    requires sheet != "" && x != ""
    ensures Analyze([StyleAttribute(Identifier(sheet)), Declare(sheet, [Entry(x)])]) == [Finding(x, Entry(x))]
  {
    var use, declare := StyleAttribute(Identifier(sheet)), Declare(sheet, [Entry(x)]);
    var t1 := Apply(Empty, use);
    ExtractSheetIdentifier(sheet, map[]);
    StyleAttributeMarks(Empty, Identifier(sheet));
    UsageSpec(Empty, []);
    assert t1 == MarkUsed(Empty, []);
    var t := Apply(t1, declare);
    DeclareOne(t1, sheet, x);
    assert x !in t.used;
    assert [x][..0] == [];
    assert Findings(t) == Unused([x], t.defined, t.used);
    AnalyzeTwo(use, declare, t);
  }

  /** After the declaration the same attribute marks the whole sheet. */
  lemma WholeSheetAfterDeclarationIsNotReported(sheet: string, x: string)
    requires sheet != "" && x != ""
    ensures Analyze([Declare(sheet, [Entry(x)]), StyleAttribute(Identifier(sheet))]) == []
  {
    var declare, use := Declare(sheet, [Entry(x)]), StyleAttribute(Identifier(sheet));
    var t1 := Apply(Empty, declare);
    DeclareOne(Empty, sheet, x);
    ExtractSheetIdentifier(sheet, t1.sheets);
    StyleAttributeMarks(t1, Identifier(sheet));
    var t := Apply(t1, use);
    AnalyzeTwo(declare, use, t);
    assert t.defined == t1.defined;
    assert x in t.used;
    AllUsedNoFindings(t);
  }
}
