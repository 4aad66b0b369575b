/**
 The per-file state of the no-unused-styles rule and the effect of each
 visitor callback on it, as pure functions (src/rules/no-unused-styles.ts:20-24,
 121-212). The class in the Analyzer module carries out the same callbacks
 step by step and is proved against these functions.

 - `definedStyles`, a JavaScript `Map` from style name to the property node
   that defined it, is `order` (its keys in insertion order) plus `defined`.
 - `usedStyles`, a `Set` of names, is `used`.
 - `styleSheetMap`, from sheet variable to the `Set` of the sheet's member
   names, is `sheets`; each member set is a duplicate-free sequence in
   insertion order.
 */
module SymbolTable {
  import opened StyleAst
  import opened Extraction

  // ---------------------------------------------------------------------------
  // Ordered insertion: `Map.set` and `Set.add` keep an existing key in place

  ghost predicate NoDuplicates(s: seq<string>)
  {
    forall i, j :: 0 <= i < j < |s| ==> s[i] != s[j]
  }

  /** Where `Map.set` or `Set.add` leaves key `k` in the key order. */
  function Insert(keys: seq<string>, k: string): seq<string>
  {
    if k in keys then keys else keys + [k]
  }

  function InsertAll(keys: seq<string>, names: seq<string>): seq<string>
  {
    if names == [] then keys else Insert(InsertAll(keys, names[..|names| - 1]), names[|names| - 1])
  }

  /** The names of `names` that `keys` lacks, each at its first occurrence
      in `names`, in that order. */
  function Fresh(keys: seq<string>, names: seq<string>): seq<string>
  {
    if names == [] then []
    else
      var init, last := names[..|names| - 1], names[|names| - 1];
      Fresh(keys, init) + if last in keys || last in init then [] else [last]
  }

  /** Inserting names one by one keeps every key already present where it
      was, then appends the new names in the order they first occur, each
      once; nothing else is added. */
  lemma {:induction false} InsertAllSpec(keys: seq<string>, names: seq<string>)
    ensures InsertAll(keys, names) == keys + Fresh(keys, names)
    ensures |keys| <= |InsertAll(keys, names)| && InsertAll(keys, names)[..|keys|] == keys
    ensures forall x :: x in InsertAll(keys, names) <==> x in keys || x in names
    ensures NoDuplicates(keys) ==> NoDuplicates(InsertAll(keys, names))
    decreases |names|
  {
    if names != [] {
      var init, last := names[..|names| - 1], names[|names| - 1];
      InsertAllSpec(keys, init);
      var before := InsertAll(keys, init);
      assert InsertAll(keys, names) == Insert(before, last);
      assert names == init + [last];
      if last !in before {
        assert (before + [last])[..|keys|] == before[..|keys|];
        assert before + [last] == keys + (Fresh(keys, init) + [last]);
      }
    }
  }

  // ---------------------------------------------------------------------------
  // Keys of the StyleSheet.create argument and of a destructuring pattern

  /** The style name a member of the object passed to `StyleSheet.create`
      defines: its key's `name`, or else its key's `value` when that is a
      string; an empty string is falsy and defines nothing
      (src/rules/no-unused-styles.ts:140-145). */
  function StyleKeyName(prop: Node): Option<string>
  {
    match prop
    case Property(Some(Identifier(n)), _) => if n != "" then Some(n) else None
    case Property(Some(Literal(StringValue(text))), _) => if text != "" then Some(text) else None
    case _ => None
  }

  /** The names the members of a style object define, in order, repeats kept. */
  function StyleNames(props: seq<Node>): seq<string>
  {
    if props == [] then []
    else
      StyleNames(props[..|props| - 1]) +
      match StyleKeyName(props[|props| - 1])
      case Some(n) => [n]
      case None => []
  }

  /** `definedStyles.set(styleName, prop)` for each member in turn. */
  function BindAll(defined: map<string, Node>, props: seq<Node>): map<string, Node>
  {
    if props == [] then defined
    else
      var before := BindAll(defined, props[..|props| - 1]);
      var last := props[|props| - 1];
      match StyleKeyName(last)
      case Some(n) => before[n := last]
      case None => before
  }

  /** The keys a style object adds are exactly its static key names; a name
      it repeats ends up bound to its last member with that name (the
      earlier ones are overwritten); other entries are kept. */
  lemma {:induction false} BindAllSpec(defined: map<string, Node>, props: seq<Node>)
    ensures forall x :: x in BindAll(defined, props) <==> x in defined || x in StyleNames(props)
    ensures forall x :: x in defined && x !in StyleNames(props) ==> BindAll(defined, props)[x] == defined[x]
    ensures forall x :: x in StyleNames(props) ==>
              exists i :: 0 <= i < |props| && StyleKeyName(props[i]) == Some(x)
                          && BindAll(defined, props)[x] == props[i]
                          && forall j :: i < j < |props| ==> StyleKeyName(props[j]) != Some(x)
    decreases |props|
  {
    if props != [] {
      var init, last := props[..|props| - 1], props[|props| - 1];
      BindAllSpec(defined, init);
      forall x | x in StyleNames(props)
        ensures exists i :: 0 <= i < |props| && StyleKeyName(props[i]) == Some(x)
                            && BindAll(defined, props)[x] == props[i]
                            && forall j :: i < j < |props| ==> StyleKeyName(props[j]) != Some(x)
      {
        if StyleKeyName(last) == Some(x) {
          assert StyleKeyName(props[|props| - 1]) == Some(x);
        } else {
          var i :| 0 <= i < |init| && StyleKeyName(init[i]) == Some(x)
                   && BindAll(defined, init)[x] == init[i]
                   && forall j :: i < j < |init| ==> StyleKeyName(init[j]) != Some(x);
          assert props[i] == init[i];
          forall j | i < j < |props| ensures StyleKeyName(props[j]) != Some(x) {
            if j < |init| { assert props[j] == init[j]; }
          }
        }
      }
    }
  }

  /** Inserting one more name: the step of a loop that inserts names in turn. */
  lemma InsertAllSnoc(keys: seq<string>, names: seq<string>, n: string)
    ensures InsertAll(keys, names + [n]) == Insert(InsertAll(keys, names), n)
  {
  }

  /** The names and bindings of one more member of a style object: the step
      of a loop over the members. */
  lemma DefineStep(defined: map<string, Node>, props: seq<Node>, i: nat)
    requires i < |props|
    ensures StyleKeyName(props[i]).None? ==>
              StyleNames(props[..i + 1]) == StyleNames(props[..i])
              && BindAll(defined, props[..i + 1]) == BindAll(defined, props[..i])
    ensures StyleKeyName(props[i]).Some? ==>
              StyleNames(props[..i + 1]) == StyleNames(props[..i]) + [StyleKeyName(props[i]).value]
              && BindAll(defined, props[..i + 1]) == BindAll(defined, props[..i])[StyleKeyName(props[i]).value := props[i]]
  {
    assert props[..i + 1][..i] == props[..i];
    assert props[..i + 1][i] == props[i];
  }

  /** A destructured key marks a name used only when the key has a non-empty
      `name`: a string-literal key is not read here, unlike in a definition
      (src/rules/no-unused-styles.ts:177-181). */
  function PatternKeyName(prop: Node): Option<string>
  {
    match prop
    case Property(Some(Identifier(n)), _) => if n != "" then Some(n) else None
    case _ => None
  }

  function PatternNames(props: seq<Node>): seq<string>
  {
    if props == [] then []
    else
      PatternNames(props[..|props| - 1]) +
      match PatternKeyName(props[|props| - 1])
      case Some(n) => [n]
      case None => []
  }

  /** A style object defines exactly the names of its members with a static
      key name. */
  lemma {:induction false} StyleNamesSpec(props: seq<Node>)
    ensures forall x :: x in StyleNames(props) <==>
              exists i :: 0 <= i < |props| && StyleKeyName(props[i]) == Some(x)
    decreases |props|
  {
    if props != [] {
      var init := props[..|props| - 1];
      StyleNamesSpec(init);
      forall x | x in StyleNames(props)
        ensures exists i :: 0 <= i < |props| && StyleKeyName(props[i]) == Some(x)
      {
        if x in StyleNames(init) {
          var i :| 0 <= i < |init| && StyleKeyName(init[i]) == Some(x);
          assert props[i] == init[i];
        }
      }
      forall x, i | 0 <= i < |props| && StyleKeyName(props[i]) == Some(x)
        ensures x in StyleNames(props)
      {
        if i < |init| {
          assert StyleKeyName(init[i]) == Some(x);
        }
      }
    }
  }

  /** A destructuring pattern marks exactly the names of its keys that are
      identifiers. */
  lemma {:induction false} PatternNamesSpec(props: seq<Node>)
    ensures forall x :: x in PatternNames(props) <==>
              exists i :: 0 <= i < |props| && PatternKeyName(props[i]) == Some(x)
    decreases |props|
  {
    if props != [] {
      var init := props[..|props| - 1];
      PatternNamesSpec(init);
      forall x | x in PatternNames(props)
        ensures exists i :: 0 <= i < |props| && PatternKeyName(props[i]) == Some(x)
      {
        if x in PatternNames(init) {
          var i :| 0 <= i < |init| && PatternKeyName(init[i]) == Some(x);
          assert props[i] == init[i];
        }
      }
      forall x, i | 0 <= i < |props| && PatternKeyName(props[i]) == Some(x)
        ensures x in PatternNames(props)
      {
        if i < |init| {
          assert PatternKeyName(init[i]) == Some(x);
        }
      }
    }
  }

  // ---------------------------------------------------------------------------
  // The per-file state

  datatype Table = Table(
    order: seq<string>,
    defined: map<string, Node>,
    used: set<string>,
    sheets: SheetMap)

  /** A fresh table: what `create` sets up for every file. */
  const Empty := Table([], map[], {}, map[])

  /** `order` lists the keys of `defined` once each, and every member of a
      registered sheet is a defined style. */
  ghost predicate WellFormed(t: Table)
  {
    && NoDuplicates(t.order)
    && (forall k :: k in t.order <==> k in t.defined)
    && (forall s :: s in t.sheets ==> NoDuplicates(t.sheets[s]))
    && (forall s, x :: s in t.sheets && x in t.sheets[s] ==> x in t.defined)
  }

  // ---------------------------------------------------------------------------
  // The visitor callbacks

  /** The members of the style object: those of the first argument when it
      is an object literal, none otherwise. */
  function SheetProperties(arguments: seq<Node>): seq<Node>
    requires |arguments| > 0
  {
    if arguments[0].ObjectExpression? then arguments[0].properties else []
  }

  /** The `VariableDeclarator` whose init is a `StyleSheet.create(...)` call
      (src/rules/no-unused-styles.ts:123-154): `id` is the declarator's
      binding, `arguments` the call's arguments. A first argument that is not
      an object literal still registers the sheet, with no members. */
  function DefineSheet(t: Table, id: Binding, arguments: seq<Node>): Table
  {
    if |arguments| > 0 && id.BindingName? && id.name != "" then
      var props := SheetProperties(arguments);
      var names := StyleNames(props);
      Table(InsertAll(t.order, names), BindAll(t.defined, props), t.used,
            t.sheets[id.name := InsertAll([], names)])
    else
      t
  }

  /** `usedStyles.add(name)` for every name in turn. */
  function MarkUsed(t: Table, names: seq<string>): Table
  {
    t.(used := t.used + set x | x in names)
  }

  /** `/[sS]tyle$/`: the name ends in `style` or `Style`. */
  predicate EndsWithStyle(name: string)
  {
    |name| >= 5 && (name[|name| - 5..] == "style" || name[|name| - 5..] == "Style")
  }

  /** Only a plain attribute name can match: for `ns:name` the tested value
      is an object, whose string form never ends in `style`. */
  predicate IsStyleAttribute(name: AttributeName)
  {
    name.PlainName? && EndsWithStyle(name.name)
  }

  /** `/[sS]tyle$/` matches exactly the names made of any prefix followed by
      `style` or `Style`. */
  lemma StyleSuffix(name: string)
    ensures EndsWithStyle(name) <==> exists p :: name == p + "style" || name == p + "Style"
  {
    if EndsWithStyle(name) {
      var p := name[..|name| - 5];
      assert name == p + name[|name| - 5..];
    }
    forall p | name == p + "style" || name == p + "Style"
      ensures EndsWithStyle(name)
    {
      assert name[|name| - 5..] == name[|p|..];
    }
  }

  /** The test's edges: a compound name ending in `Style` matches; other
      capitalisations and a trailing `s` do not. */
  lemma StyleSuffixEdges()
    ensures EndsWithStyle("style") && EndsWithStyle("contentContainerStyle")
    ensures !EndsWithStyle("STYLE") && !EndsWithStyle("stYle") && !EndsWithStyle("styles")
  {
    StyleSuffix("contentContainerStyle");
    assert "contentContainerStyle" == "contentContainer" + "Style";
  }

  /** A `JSXAttribute` (src/rules/no-unused-styles.ts:157-170); `expression` is
      the expression of the attribute's value, `None` when the value is absent
      or holds no expression (a string value). */
  function OnJsxAttribute(t: Table, name: AttributeName, expression: Option<Node>): Table
  {
    if IsStyleAttribute(name) && expression.Some? then MarkUsed(t, Extract(expression.value, t.sheets))
    else t
  }

  /** A `VariableDeclarator` whose init is the identifier `initName`
      (src/rules/no-unused-styles.ts:173-184). */
  function OnDestructure(t: Table, id: Binding, initName: string): Table
  {
    if initName in t.sheets && id.ObjectPattern? then MarkUsed(t, PatternNames(id.properties))
    else t
  }

  /** A `ReturnStatement` (src/rules/no-unused-styles.ts:187-192). */
  function OnReturn(t: Table, argument: Option<Node>): Table
  {
    if argument.Some? then MarkUsed(t, Extract(argument.value, t.sheets)) else t
  }

  /** An `AssignmentExpression` (src/rules/no-unused-styles.ts:195-200). */
  function OnAssignment(t: Table, right: Option<Node>): Table
  {
    if right.Some? then MarkUsed(t, Extract(right.value, t.sheets)) else t
  }

  // ---------------------------------------------------------------------------
  // The final sweep

  /** What `context.report` receives: the style name and its defining node. */
  datatype Finding = Finding(name: string, node: Node)

  /** The reports for `keys`, in their order, skipping used names. */
  function Unused(keys: seq<string>, defined: map<string, Node>, used: set<string>): seq<Finding>
    requires forall k :: k in keys ==> k in defined
  {
    if keys == [] then []
    else
      var last := keys[|keys| - 1];
      Unused(keys[..|keys| - 1], defined, used) +
      if last in used then [] else [Finding(last, defined[last])]
  }

  /** `Program:exit` (src/rules/no-unused-styles.ts:203-211). */
  function Findings(t: Table): seq<Finding>
    requires WellFormed(t)
  {
    Unused(t.order, t.defined, t.used)
  }

  /** The position of `x` in `s`. */
  function IndexOf(s: seq<string>, x: string): (i: nat)
    requires x in s
    ensures i < |s| && s[i] == x && x !in s[..i]
  {
    if s[0] == x then 0 else 1 + IndexOf(s[1..], x)
  }

  /** The sweep reports each defined but unused name, and only those, once,
      with the node that defined it, in definition order. */
  lemma {:induction false} UnusedSpec(keys: seq<string>, defined: map<string, Node>, used: set<string>)
    requires forall k :: k in keys ==> k in defined
    requires NoDuplicates(keys)
    ensures forall f :: f in Unused(keys, defined, used) ==>
              f.name in keys && f.name !in used && f.node == defined[f.name]
    ensures forall k :: k in keys && k !in used ==> Finding(k, defined[k]) in Unused(keys, defined, used)
    ensures forall i, j :: 0 <= i < j < |Unused(keys, defined, used)| ==>
              IndexOf(keys, Unused(keys, defined, used)[i].name) < IndexOf(keys, Unused(keys, defined, used)[j].name)
    decreases |keys|
  {
    if keys != [] {
      var init, last := keys[..|keys| - 1], keys[|keys| - 1];
      assert NoDuplicates(init);
      UnusedSpec(init, defined, used);
      var before := Unused(init, defined, used);
      var all := Unused(keys, defined, used);
      assert keys == init + [last];
      assert last !in init;
      forall k | k in init ensures IndexOf(keys, k) == IndexOf(init, k) {
        IndexOfExtend(init, [last], k);
      }
      assert IndexOf(keys, last) == |init| by { IndexOfLast(init, last); }
      forall i, j | 0 <= i < j < |all|
        ensures IndexOf(keys, all[i].name) < IndexOf(keys, all[j].name)
      {
        assert all[i] == before[i];
        assert all[i] in before;
        if j < |before| {
          assert all[j] == before[j];
          assert all[j] in before;
        }
      }
    }
  }

  /** Appending keys leaves the position of a present key unchanged. */
  lemma {:induction false} IndexOfExtend(s: seq<string>, rest: seq<string>, k: string)
    requires k in s
    ensures IndexOf(s + rest, k) == IndexOf(s, k)
    decreases |s|
  {
    if s[0] != k {
      assert (s + rest)[1..] == s[1..] + rest;
      IndexOfExtend(s[1..], rest, k);
    }
  }

  lemma IndexOfLast(init: seq<string>, last: string)
    requires last !in init
    ensures IndexOf(init + [last], last) == |init|
  {
  }

  /** `Program:exit` reports exactly the defined names that are not used,
      each once, paired with its defining node, in definition order. */
  lemma FindingsSpec(t: Table)
    requires WellFormed(t)
    ensures forall f :: f in Findings(t) ==> f.name in t.defined && f.name !in t.used && f.node == t.defined[f.name]
    ensures forall k :: k in t.defined && k !in t.used ==> Finding(k, t.defined[k]) in Findings(t)
    ensures forall i, j :: 0 <= i < j < |Findings(t)| ==>
              IndexOf(t.order, Findings(t)[i].name) < IndexOf(t.order, Findings(t)[j].name)
  {
    UnusedSpec(t.order, t.defined, t.used);
  }

  /** When every defined style is used, the sweep reports nothing. */
  lemma AllUsedNoFindings(t: Table)
    requires WellFormed(t)
    requires forall k :: k in t.defined ==> k in t.used
    ensures Findings(t) == []
  {
    FindingsSpec(t);
    NothingInMeansEmpty(Findings(t));
  }

  // ---------------------------------------------------------------------------
  // What each callback does to the table

  /** A `StyleSheet.create` declarator with a named binding and an argument:
      every member with a static key name becomes a defined style (a repeated
      name keeps its first position and its last node) and a member of the
      sheet, whose entry is replaced wholesale; members without such a name
      are skipped; nothing else changes. */
  lemma DefineSheetSpec(t: Table, id: Binding, arguments: seq<Node>)
    requires WellFormed(t)
    requires |arguments| > 0 && id.BindingName? && id.name != ""
    ensures var t', names := DefineSheet(t, id, arguments), StyleNames(SheetProperties(arguments));
      && WellFormed(t')
      && t'.order == t.order + Fresh(t.order, names)
      && (forall x :: x in t'.defined <==> x in t.defined || x in names)
      && (forall x :: x in t.defined && x !in names ==> t'.defined[x] == t.defined[x])
      && id.name in t'.sheets && t'.sheets[id.name] == Fresh([], names)
      && (forall x :: x in t'.sheets[id.name] <==> x in names)
      && (forall s :: s != id.name ==> (s in t'.sheets <==> s in t.sheets))
      && (forall s :: s != id.name && s in t.sheets ==> t'.sheets[s] == t.sheets[s])
      && t'.used == t.used
    ensures var t', props := DefineSheet(t, id, arguments), SheetProperties(arguments);
      forall x :: x in StyleNames(props) ==>
        exists i :: 0 <= i < |props| && StyleKeyName(props[i]) == Some(x) && t'.defined[x] == props[i]
                    && forall j :: i < j < |props| ==> StyleKeyName(props[j]) != Some(x)
  {
    var props := SheetProperties(arguments);
    var names := StyleNames(props);
    InsertAllSpec(t.order, names);
    InsertAllSpec([], names);
    BindAllSpec(t.defined, props);
  }

  /** Inserting names never moves a key already present. */
  lemma InsertAllKeepsPosition(keys: seq<string>, names: seq<string>, k: string)
    requires k in keys
    ensures k in InsertAll(keys, names) && IndexOf(InsertAll(keys, names), k) == IndexOf(keys, k)
  {
    var all := InsertAll(keys, names);
    InsertAllSpec(keys, names);
    assert all == keys + all[|keys|..];
    IndexOfExtend(keys, all[|keys|..], k);
  }

  /** Redefining a style (`Map.set` on a key already present) keeps the
      position it was first defined at, and so its place in the reports. */
  lemma RedefinitionKeepsPosition(t: Table, id: Binding, arguments: seq<Node>, k: string)
    requires WellFormed(t) && k in t.defined
    ensures k in DefineSheet(t, id, arguments).order
    ensures IndexOf(DefineSheet(t, id, arguments).order, k) == IndexOf(t.order, k)
  {
    if |arguments| > 0 && id.BindingName? && id.name != "" {
      InsertAllKeepsPosition(t.order, StyleNames(SheetProperties(arguments)), k);
    }
  }

  /** The usage callbacks add names to `used`; they never remove one and
      never touch the definitions or the sheets. */
  lemma UsageSpec(t: Table, names: seq<string>)
    requires WellFormed(t)
    ensures var t' := MarkUsed(t, names);
      && WellFormed(t')
      && (forall x :: x in t'.used <==> x in t.used || x in names)
      && t'.order == t.order && t'.defined == t.defined && t'.sheets == t.sheets
  {
  }

  /** A JSX attribute marks what its expression extracts when its name ends
      in `style` or `Style` and its value has an expression; any other
      attribute marks nothing. */
  lemma AttributeSpec(t: Table, name: AttributeName, expression: Option<Node>)
    requires WellFormed(t)
    ensures var t' := OnJsxAttribute(t, name, expression);
      && WellFormed(t')
      && (forall x :: x in t'.used <==>
            x in t.used || (IsStyleAttribute(name) && expression.Some? && x in Extract(expression.value, t.sheets)))
      && t'.order == t.order && t'.defined == t.defined && t'.sheets == t.sheets
  {
  }

  /** Destructuring from a registered sheet marks the identifier keys of the
      pattern, whether or not the sheet has such members; destructuring from
      anything else, or into a non-object pattern, marks nothing. */
  lemma DestructureSpec(t: Table, id: Binding, initName: string)
    requires WellFormed(t)
    ensures var t' := OnDestructure(t, id, initName);
      && WellFormed(t')
      && (forall x :: x in t'.used <==>
            x in t.used || (initName in t.sheets && id.ObjectPattern?
                            && exists i :: 0 <= i < |id.properties| && PatternKeyName(id.properties[i]) == Some(x)))
      && t'.order == t.order && t'.defined == t.defined && t'.sheets == t.sheets
  {
    if id.ObjectPattern? {
      PatternNamesSpec(id.properties);
      UsageSpec(t, PatternNames(id.properties));
    }
  }

  /** A return statement marks what its argument extracts; a bare `return`
      marks nothing. */
  lemma ReturnSpec(t: Table, argument: Option<Node>)
    requires WellFormed(t)
    ensures var t' := OnReturn(t, argument);
      && WellFormed(t')
      && (forall x :: x in t'.used <==> x in t.used || (argument.Some? && x in Extract(argument.value, t.sheets)))
      && t'.order == t.order && t'.defined == t.defined && t'.sheets == t.sheets
  {
  }

  /** An assignment marks what its right-hand side extracts. */
  lemma AssignmentSpec(t: Table, right: Option<Node>)
    requires WellFormed(t)
    ensures var t' := OnAssignment(t, right);
      && WellFormed(t')
      && (forall x :: x in t'.used <==> x in t.used || (right.Some? && x in Extract(right.value, t.sheets)))
      && t'.order == t.order && t'.defined == t.defined && t'.sheets == t.sheets
  {
  }

  // ---------------------------------------------------------------------------
  // A file's run: the callbacks in the order the tree walker makes them

  /** One visitor callback, with the parts of the visited node the rule reads. */
  datatype Event =
    | SheetDeclarator(id: Binding, arguments: seq<Node>)
    | Attribute(attributeName: AttributeName, expression: Option<Node>)
    | IdentifierDeclarator(id: Binding, initName: string)
    | Return(argument: Option<Node>)
    | Assign(right: Option<Node>)

  function Apply(t: Table, e: Event): Table
  {
    match e
    case SheetDeclarator(id, arguments) => DefineSheet(t, id, arguments)
    case Attribute(name, expression) => OnJsxAttribute(t, name, expression)
    case IdentifierDeclarator(id, initName) => OnDestructure(t, id, initName)
    case Return(argument) => OnReturn(t, argument)
    case Assign(right) => OnAssignment(t, right)
  }

  /** Every callback keeps the table well formed, only adds to `used`, and
      keeps every defined name, at its position; only a sheet declarator
      touches the definitions and the sheets. */
  lemma ApplySpec(t: Table, e: Event)
    requires WellFormed(t)
    ensures var t' := Apply(t, e);
      && WellFormed(t')
      && t.used <= t'.used
      && |t.order| <= |t'.order| && t'.order[..|t.order|] == t.order
      && (forall x :: x in t.defined ==> x in t'.defined)
      && (!e.SheetDeclarator? ==> t'.order == t.order && t'.defined == t.defined && t'.sheets == t.sheets)
  {
    match e
    case SheetDeclarator(id, arguments) =>
      if |arguments| > 0 && id.BindingName? && id.name != "" {
        DefineSheetSpec(t, id, arguments);
      }
    case _ =>
  }

  /** The table after the callbacks `events`, starting from `t`. */
  function Run(t: Table, events: seq<Event>): (r: Table)
    requires WellFormed(t)
    ensures WellFormed(r) && t.used <= r.used
    ensures |t.order| <= |r.order| && r.order[..|t.order|] == t.order
    decreases |events|
  {
    if events == [] then t
    else
      var before := Run(t, events[..|events| - 1]);
      ApplySpec(before, events[|events| - 1]);
      Apply(before, events[|events| - 1])
  }

  /** The reports of one file: a fresh table, the callbacks, then the sweep. */
  function Analyze(events: seq<Event>): seq<Finding>
  {
    Findings(Run(Empty, events))
  }

  lemma {:induction false} RunConcat(t: Table, a: seq<Event>, b: seq<Event>)
    requires WellFormed(t)
    ensures Run(t, a + b) == Run(Run(t, a), b)
    decreases |b|
  {
    if b == [] {
      assert a + b == a;
    } else {
      assert (a + b)[..|a + b| - 1] == a + b[..|b| - 1];
      assert (a + b)[|a + b| - 1] == b[|b| - 1];
      RunConcat(t, a, b[..|b| - 1]);
    }
  }

  lemma RunSnoc(t: Table, events: seq<Event>, e: Event)
    requires WellFormed(t)
    ensures Run(t, events + [e]) == Apply(Run(t, events), e)
  {
  }

  /** A file without a `StyleSheet.create` declarator defines nothing, so it
      gets no reports. */
  lemma {:induction false} NoSheetNoFindings(events: seq<Event>)
    requires forall i :: 0 <= i < |events| ==> !events[i].SheetDeclarator?
    ensures Run(Empty, events).order == [] && Analyze(events) == []
    decreases |events|
  {
    if events != [] {
      var init := events[..|events| - 1];
      NoSheetNoFindings(init);
      ApplySpec(Run(Empty, init), events[|events| - 1]);
    }
  }

  /** The table as the callback `events[i]` sees it. */
  function Before(events: seq<Event>, i: nat): Table
    requires i <= |events|
  {
    Run(Empty, events[..i])
  }

  /** A name that some callback marks used is never reported, whatever comes
      before or after it: usage is monotone and the sweep runs last. */
  lemma UsedNeverReported(events: seq<Event>, i: nat, x: string)
    requires i < |events|
    requires x in Apply(Before(events, i), events[i]).used
    ensures forall f :: f in Analyze(events) ==> f.name != x
  {
    var upTo := events[..i + 1];
    assert upTo[..i] == events[..i];
    assert events == upTo + events[i + 1..];
    RunConcat(Empty, upTo, events[i + 1..]);
    FindingsSpec(Run(Empty, events));
  }

  /** Every name extracted from the expression of a style attribute, with the
      sheets registered at that point, is never reported. */
  lemma AttributeUseNeverReported(events: seq<Event>, i: nat, name: AttributeName, e: Node)
    requires i < |events| && events[i] == Attribute(name, Some(e)) && IsStyleAttribute(name)
    ensures forall f :: f in Analyze(events) ==> f.name !in Extract(e, Before(events, i).sheets)
  {
    forall x | x in Extract(e, Before(events, i).sheets)
      ensures forall f :: f in Analyze(events) ==> f.name != x
    {
      UsedNeverReported(events, i, x);
    }
  }

  /** `style={styles.x}` anywhere in the file keeps `x` from being reported,
      whether the sheet is declared before or after the attribute. */
  lemma MemberAccessNeverReported(events: seq<Event>, i: nat, attribute: string, sheet: string, x: string)
    requires i < |events| && EndsWithStyle(attribute) && sheet != ""
    requires events[i] == Attribute(PlainName(attribute), Some(MemberExpression(Some(sheet), Some(Identifier(x)))))
    ensures forall f :: f in Analyze(events) ==> f.name != x
  {
    AttributeUseNeverReported(events, i, PlainName(attribute), MemberExpression(Some(sheet), Some(Identifier(x))));
  }

  /** `style={styles}` marks every member of the sheet `styles` registered at
      that point as used, so none of them is reported. */
  lemma WholeSheetNeverReported(events: seq<Event>, i: nat, attribute: string, sheet: string)
    requires i < |events| && EndsWithStyle(attribute)
    requires events[i] == Attribute(PlainName(attribute), Some(Identifier(sheet)))
    requires sheet in Before(events, i).sheets
    ensures forall f :: f in Analyze(events) ==> f.name !in Before(events, i).sheets[sheet]
  {
    AttributeUseNeverReported(events, i, PlainName(attribute), Identifier(sheet));
  }

  /** `const { a, b } = styles`, once `styles` is registered, keeps `a` and `b`
      from being reported. */
  lemma DestructuredNeverReported(events: seq<Event>, i: nat, properties: seq<Node>, sheet: string)
    requires i < |events| && events[i] == IdentifierDeclarator(ObjectPattern(properties), sheet)
    requires sheet in Before(events, i).sheets
    ensures forall f :: f in Analyze(events) ==> f.name !in PatternNames(properties)
  {
    forall x | x in PatternNames(properties)
      ensures forall f :: f in Analyze(events) ==> f.name != x
    {
      UsedNeverReported(events, i, x);
    }
  }

  /** A name extracted from a returned expression or from the right-hand side
      of an assignment is never reported. */
  lemma ReturnOrAssignmentNeverReported(events: seq<Event>, i: nat, e: Node)
    requires i < |events| && (events[i] == Return(Some(e)) || events[i] == Assign(Some(e)))
    ensures forall f :: f in Analyze(events) ==> f.name !in Extract(e, Before(events, i).sheets)
  {
    forall x | x in Extract(e, Before(events, i).sheets)
      ensures forall f :: f in Analyze(events) ==> f.name != x
    {
      UsedNeverReported(events, i, x);
    }
  }
}
