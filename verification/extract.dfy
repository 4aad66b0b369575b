/**
 `extractStyleNames` of src/rules/no-unused-styles.ts: the style names an
 expression may reference.

 The extractor reads one piece of analyzer state, the map from style-sheet
 variable to the sheet's member names, so here it is a function of the node
 and of that map. A sheet's members are a duplicate-free sequence in
 insertion order, which is what `Array.from` of a JavaScript `Set` yields.

 Its partner is a separate description in two parts: `Sources(n)`, the
 nodes the extractor descends to from `n`, and `Emit(v, sheets)`, the names
 one such node contributes by itself. `Extract`'s contract says that the
 names extracted are exactly those emitted by the nodes it reaches.
 */
module Extraction {
  import opened StyleAst

  type SheetMap = map<string, seq<string>>

  /** The names node `v` contributes on its own: the property of a member
      access whose object has a name, or every member of the sheet an
      identifier names. Every other shape contributes nothing by itself. */
  function Emit(v: Node, sheets: SheetMap): seq<string>
  {
    match v
    case MemberExpression(objectName, Some(Identifier(p))) =>
      if Truthy(objectName) then [p] else []
    case Identifier(s) => if s in sheets then sheets[s] else []
    case _ => []
  }

  /** The nodes the extractor visits starting from `n`, `n` included. */
  ghost function Sources(n: Node): set<Node>
  {
    {n} +
    match n
    case ArrayExpression(es) => SourcesOfElements(es)
    case SpreadElement(a) => SourcesOpt(a)
    case ConditionalExpression(t, c, a) => SourcesOpt(c) + SourcesOpt(a) + SourcesOpt(t)
    case ObjectExpression(ps) => SourcesOfProperties(ps)
    case Property(_, v) => SourcesOpt(v)
    case LogicalExpression(l, r) => SourcesOpt(l) + SourcesOpt(r)
    case BinaryExpression(l, r, a) => SourcesOpt(l) + SourcesOpt(r) + SourcesOpt(a)
    case UnaryExpression(l, r, a) => SourcesOpt(l) + SourcesOpt(r) + SourcesOpt(a)
    case UpdateExpression(l, r, a) => SourcesOpt(l) + SourcesOpt(r) + SourcesOpt(a)
    case _ => {}
  }

  ghost function SourcesOpt(o: Option<Node>): set<Node>
  {
    match o
    case None => {}
    case Some(n) => Sources(n)
  }

  ghost function SourcesOfElements(es: seq<Option<Node>>): set<Node>
  {
    if es == [] then {} else SourcesOfElements(es[..|es| - 1]) + SourcesOpt(es[|es| - 1])
  }

  /** An object literal is entered through its spreads' arguments and its
      properties' values, not through the members themselves. */
  ghost function SourcesOfMember(p: Node): set<Node>
  {
    match p
    case SpreadElement(a) => SourcesOpt(a)
    case Property(_, v) => SourcesOpt(v)
    case _ => {}
  }

  ghost function SourcesOfProperties(ps: seq<Node>): set<Node>
  {
    if ps == [] then {} else SourcesOfProperties(ps[..|ps| - 1]) + SourcesOfMember(ps[|ps| - 1])
  }

  /** The style names expression `n` may reference (src/rules/no-unused-styles.ts:27-119). */
  function Extract(n: Node, sheets: SheetMap): seq<string>
  {
    match n
    case MemberExpression(objectName, property) =>
      if Truthy(objectName) && property.Some? && property.value.Identifier?
      then [property.value.name]
      else []
    case ArrayExpression(es) => ExtractElements(es, sheets)
    case SpreadElement(a) => ExtractOpt(a, sheets)
    case ConditionalExpression(t, c, a) =>
      ExtractOpt(c, sheets) + ExtractOpt(a, sheets) + ExtractOpt(t, sheets)
    case Identifier(s) => if s in sheets then sheets[s] else []
    case ObjectExpression(ps) => ExtractProperties(ps, sheets)
    case Property(_, v) => ExtractOpt(v, sheets)
    case LogicalExpression(l, r) => ExtractOpt(l, sheets) + ExtractOpt(r, sheets)
    case BinaryExpression(l, r, a) =>
      ExtractOpt(l, sheets) + ExtractOpt(r, sheets) + ExtractOpt(a, sheets)
    case UnaryExpression(l, r, a) =>
      ExtractOpt(l, sheets) + ExtractOpt(r, sheets) + ExtractOpt(a, sheets)
    case UpdateExpression(l, r, a) =>
      ExtractOpt(l, sheets) + ExtractOpt(r, sheets) + ExtractOpt(a, sheets)
    case _ => []
  }

  /** A missing node (`if (!node) return []`) extracts nothing. */
  function ExtractOpt(o: Option<Node>, sheets: SheetMap): seq<string>
  {
    match o
    case None => []
    case Some(n) => Extract(n, sheets)
  }

  /** The array branch's `forEach`: holes are skipped, results concatenated in order. */
  function ExtractElements(es: seq<Option<Node>>, sheets: SheetMap): seq<string>
  {
    if es == [] then [] else ExtractElements(es[..|es| - 1], sheets) + ExtractOpt(es[|es| - 1], sheets)
  }

  /** One member of an object literal: a spread contributes its argument, a
      property its value; anything else nothing. */
  function ExtractMember(p: Node, sheets: SheetMap): seq<string>
  {
    match p
    case SpreadElement(a) => ExtractOpt(a, sheets)
    case Property(_, v) => ExtractOpt(v, sheets)
    case _ => []
  }

  /** The object branch's `forEach` over the members, results concatenated in order. */
  function ExtractProperties(ps: seq<Node>, sheets: SheetMap): seq<string>
  {
    if ps == [] then [] else ExtractProperties(ps[..|ps| - 1], sheets) + ExtractMember(ps[|ps| - 1], sheets)
  }

  /** `names` lists exactly the names that the nodes in `nodes` emit. */
  ghost predicate Characterizes(names: seq<string>, nodes: set<Node>, sheets: SheetMap)
  {
    forall x :: x in names <==> exists v :: v in nodes && x in Emit(v, sheets)
  }

  lemma CharacterizesConcat(a: seq<string>, s: set<Node>, b: seq<string>, t: set<Node>, sheets: SheetMap)
    requires Characterizes(a, s, sheets) && Characterizes(b, t, sheets)
    ensures Characterizes(a + b, s + t, sheets)
  {
  }

  /** A node that emits nothing by itself can be added to the visited set freely. */
  lemma CharacterizesSilent(names: seq<string>, nodes: set<Node>, n: Node, sheets: SheetMap)
    requires Characterizes(names, nodes, sheets) && Emit(n, sheets) == []
    ensures Characterizes(names, {n} + nodes, sheets)
  {
  }

  /** The names `Extract` returns are exactly those emitted by the nodes it
      reaches: a qualified member access gives its property name, an
      identifier naming a registered sheet gives all of that sheet's members,
      and nothing else gives anything. */
  lemma {:induction false} ExtractMatchesSources(n: Node, sheets: SheetMap)
    ensures Characterizes(Extract(n, sheets), Sources(n), sheets)
    decreases n
  {
    match n
    case MemberExpression(_, _) =>
      assert Sources(n) == {n};
    case Identifier(_) =>
      assert Sources(n) == {n};
    case ArrayExpression(es) =>
      ElementsMatchSources(es, sheets);
      CharacterizesSilent(Extract(n, sheets), SourcesOfElements(es), n, sheets);
    case SpreadElement(a) =>
      OptMatchesSources(a, sheets);
      CharacterizesSilent(Extract(n, sheets), SourcesOpt(a), n, sheets);
    case ConditionalExpression(t, c, a) =>
      OptMatchesSources(c, sheets);
      OptMatchesSources(a, sheets);
      OptMatchesSources(t, sheets);
      ThreeMatchSources(n, c, a, t, sheets);
    case ObjectExpression(ps) =>
      PropertiesMatchSources(ps, sheets);
      CharacterizesSilent(Extract(n, sheets), SourcesOfProperties(ps), n, sheets);
    case Property(_, v) =>
      OptMatchesSources(v, sheets);
      CharacterizesSilent(Extract(n, sheets), SourcesOpt(v), n, sheets);
    case LogicalExpression(l, r) =>
      OptMatchesSources(l, sheets);
      OptMatchesSources(r, sheets);
      CharacterizesConcat(ExtractOpt(l, sheets), SourcesOpt(l), ExtractOpt(r, sheets), SourcesOpt(r), sheets);
      CharacterizesSilent(Extract(n, sheets), SourcesOpt(l) + SourcesOpt(r), n, sheets);
    case BinaryExpression(l, r, a) =>
      OptMatchesSources(l, sheets);
      OptMatchesSources(r, sheets);
      OptMatchesSources(a, sheets);
      ThreeMatchSources(n, l, r, a, sheets);
    case UnaryExpression(l, r, a) =>
      OptMatchesSources(l, sheets);
      OptMatchesSources(r, sheets);
      OptMatchesSources(a, sheets);
      ThreeMatchSources(n, l, r, a, sheets);
    case UpdateExpression(l, r, a) =>
      OptMatchesSources(l, sheets);
      OptMatchesSources(r, sheets);
      OptMatchesSources(a, sheets);
      ThreeMatchSources(n, l, r, a, sheets);
    case Literal(_) =>
      assert Sources(n) == {n};
    case Other =>
      assert Sources(n) == {n};
  }

  /** The three-operand shapes: `n` emits nothing itself and concatenates its
      operands' results in the order given. */
  lemma ThreeMatchSources(n: Node, x: Option<Node>, y: Option<Node>, z: Option<Node>, sheets: SheetMap)
    requires Emit(n, sheets) == []
    requires Extract(n, sheets) == ExtractOpt(x, sheets) + ExtractOpt(y, sheets) + ExtractOpt(z, sheets)
    requires Sources(n) == {n} + (SourcesOpt(x) + SourcesOpt(y) + SourcesOpt(z))
    requires Characterizes(ExtractOpt(x, sheets), SourcesOpt(x), sheets)
    requires Characterizes(ExtractOpt(y, sheets), SourcesOpt(y), sheets)
    requires Characterizes(ExtractOpt(z, sheets), SourcesOpt(z), sheets)
    ensures Characterizes(Extract(n, sheets), Sources(n), sheets)
  {
    CharacterizesConcat(ExtractOpt(x, sheets), SourcesOpt(x), ExtractOpt(y, sheets), SourcesOpt(y), sheets);
    CharacterizesConcat(ExtractOpt(x, sheets) + ExtractOpt(y, sheets), SourcesOpt(x) + SourcesOpt(y),
                        ExtractOpt(z, sheets), SourcesOpt(z), sheets);
    CharacterizesSilent(Extract(n, sheets), SourcesOpt(x) + SourcesOpt(y) + SourcesOpt(z), n, sheets);
  }

  lemma {:induction false} OptMatchesSources(o: Option<Node>, sheets: SheetMap)
    ensures Characterizes(ExtractOpt(o, sheets), SourcesOpt(o), sheets)
    decreases o
  {
    match o
    case None =>
    case Some(n) => ExtractMatchesSources(n, sheets);
  }

  lemma {:induction false} ElementsMatchSources(es: seq<Option<Node>>, sheets: SheetMap)
    ensures Characterizes(ExtractElements(es, sheets), SourcesOfElements(es), sheets)
    decreases es
  {
    if es != [] {
      var init, last := es[..|es| - 1], es[|es| - 1];
      ElementsMatchSources(init, sheets);
      OptMatchesSources(last, sheets);
      CharacterizesConcat(ExtractElements(init, sheets), SourcesOfElements(init),
                          ExtractOpt(last, sheets), SourcesOpt(last), sheets);
    }
  }

  lemma {:induction false} MemberMatchesSources(p: Node, sheets: SheetMap)
    ensures Characterizes(ExtractMember(p, sheets), SourcesOfMember(p), sheets)
    decreases p
  {
    match p
    case SpreadElement(a) => OptMatchesSources(a, sheets);
    case Property(_, v) => OptMatchesSources(v, sheets);
    case _ =>
  }

  lemma {:induction false} PropertiesMatchSources(ps: seq<Node>, sheets: SheetMap)
    ensures Characterizes(ExtractProperties(ps, sheets), SourcesOfProperties(ps), sheets)
    decreases ps
  {
    if ps != [] {
      var init, last := ps[..|ps| - 1], ps[|ps| - 1];
      PropertiesMatchSources(init, sheets);
      MemberMatchesSources(last, sheets);
      CharacterizesConcat(ExtractProperties(init, sheets), SourcesOfProperties(init),
                          ExtractMember(last, sheets), SourcesOfMember(last), sheets);
    }
  }

  /** `styles.container`: the property name is extracted as soon as the object
      has a name, whether or not that name is a registered sheet. */
  lemma ExtractMemberAccess(objectName: string, property: string, sheets: SheetMap)
    requires objectName != ""
    ensures Extract(MemberExpression(Some(objectName), Some(Identifier(property))), sheets) == [property]
  {
  }

  /** A member access whose object has no name, or whose property is not an
      identifier (`styles['x']`), extracts nothing. */
  lemma ExtractUnqualifiedMemberAccess(objectName: Option<string>, property: Option<Node>, sheets: SheetMap)
    requires !Truthy(objectName) || !(property.Some? && property.value.Identifier?)
    ensures Extract(MemberExpression(objectName, property), sheets) == []
  {
  }

  /** Passing a whole sheet extracts all of its members; an identifier that
      names no registered sheet extracts nothing. */
  lemma ExtractSheetIdentifier(name: string, sheets: SheetMap)
    ensures name in sheets ==> Extract(Identifier(name), sheets) == sheets[name]
    ensures name !in sheets ==> Extract(Identifier(name), sheets) == []
  {
  }

  /** An expression that reaches no qualified member access and no sheet
      identifier extracts nothing; in particular `Other`, a literal and a
      missing node. */
  lemma ExtractNothingWithoutReferences(n: Node, sheets: SheetMap)
    requires forall v :: v in Sources(n) ==> Emit(v, sheets) == []
    ensures Extract(n, sheets) == []
  {
    ExtractMatchesSources(n, sheets);
    var names := Extract(n, sheets);
    assert forall x :: x !in names;
    NothingInMeansEmpty(names);
  }

  lemma NothingInMeansEmpty<T>(s: seq<T>)
    ensures (forall x :: x !in s) ==> s == []
  {
    if s != [] {
      assert s[0] in s;
    }
  }

  /** The array rule distributes over concatenation of the element list. */
  lemma {:induction false} ExtractArrayConcat(a: seq<Option<Node>>, b: seq<Option<Node>>, sheets: SheetMap)
    ensures Extract(ArrayExpression(a + b), sheets)
         == Extract(ArrayExpression(a), sheets) + Extract(ArrayExpression(b), sheets)
    decreases |b|
  {
    if b == [] {
      assert a + b == a;
    } else {
      var init, last := b[..|b| - 1], b[|b| - 1];
      assert (a + b)[..|a + b| - 1] == a + init;
      assert (a + b)[|a + b| - 1] == last;
      ExtractArrayConcat(a, init, sheets);
    }
  }

  /** A name comes out of an array exactly when it comes out of one of its
      present elements; holes contribute nothing. */
  lemma {:induction false} ExtractArrayUnion(es: seq<Option<Node>>, sheets: SheetMap, x: string)
    ensures x in Extract(ArrayExpression(es), sheets)
        <==> exists i :: 0 <= i < |es| && es[i].Some? && x in Extract(es[i].value, sheets)
    decreases |es|
  {
    if es != [] {
      var init := es[..|es| - 1];
      ExtractArrayUnion(init, sheets, x);
      assert Extract(ArrayExpression(es), sheets)
          == Extract(ArrayExpression(init), sheets) + ExtractOpt(es[|es| - 1], sheets);
      if x in Extract(ArrayExpression(es), sheets) {
        if x !in Extract(ArrayExpression(init), sheets) {
          assert es[|es| - 1].Some? && x in Extract(es[|es| - 1].value, sheets);
        } else {
          var i :| 0 <= i < |init| && init[i].Some? && x in Extract(init[i].value, sheets);
          assert es[i] == init[i];
        }
      } else {
        forall i | 0 <= i < |es| && es[i].Some?
          ensures x !in Extract(es[i].value, sheets)
        {
          if i < |init| { assert es[i] == init[i]; }
        }
      }
    }
  }

  /** A name comes out of an object literal exactly when it comes out of one
      of its members: a spread's argument or a property's value. */
  lemma {:induction false} ExtractObjectUnion(ps: seq<Node>, sheets: SheetMap, x: string)
    ensures x in Extract(ObjectExpression(ps), sheets)
        <==> exists i :: 0 <= i < |ps| && x in ExtractMember(ps[i], sheets)
    decreases |ps|
  {
    if ps != [] {
      var init := ps[..|ps| - 1];
      ExtractObjectUnion(init, sheets, x);
      assert Extract(ObjectExpression(ps), sheets)
          == Extract(ObjectExpression(init), sheets) + ExtractMember(ps[|ps| - 1], sheets);
      if x in Extract(ObjectExpression(ps), sheets) {
        if x !in Extract(ObjectExpression(init), sheets) {
          assert x in ExtractMember(ps[|ps| - 1], sheets);
        } else {
          var i :| 0 <= i < |init| && x in ExtractMember(init[i], sheets);
          assert ps[i] == init[i];
        }
      } else {
        forall i | 0 <= i < |ps|
          ensures x !in ExtractMember(ps[i], sheets)
        {
          if i < |init| { assert ps[i] == init[i]; }
        }
      }
    }
  }
}
