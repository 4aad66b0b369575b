/**
 The rule object that `create` builds for one file
 (src/rules/no-unused-styles.ts:18-214): the three collections it closes
 over become fields, and each visitor callback becomes a method that
 updates them step by step, with the `forEach` loops of the source. Every
 method is proved to have exactly the effect the SymbolTable function of
 the same callback describes.

 The host's tree walker, which decides which callback runs on which node
 and in what order, is not modelled: `AnalyzeFile` takes the callbacks as
 a sequence of events.
 */
module Analyzer {
  import opened StyleAst
  import opened Extraction
  import opened SymbolTable

  class NoUnusedStyles {
    /** The keys of `definedStyles`, in insertion order. */
    var definedOrder: seq<string>
    var definedStyles: map<string, Node>
    var usedStyles: set<string>
    var styleSheetMap: SheetMap

    function State(): Table
      reads this
    {
      Table(definedOrder, definedStyles, usedStyles, styleSheetMap)
    }

    ghost predicate Valid()
      reads this
    {
      WellFormed(State())
    }

    /** Each file starts from empty collections. */
    constructor ()
      ensures Valid() && State() == Empty
    {
      definedOrder := [];
      definedStyles := map[];
      usedStyles := {};
      styleSheetMap := map[];
    }

    /** The `StyleSheet.create` declarator callback
        (src/rules/no-unused-styles.ts:124-154). */
    method OnStyleSheetCreate(id: Binding, arguments: seq<Node>)
      requires Valid()
      modifies this
      ensures Valid()
      ensures State() == DefineSheet(old(State()), id, arguments)
    {
      if |arguments| > 0 && id.BindingName? && id.name != "" {
        var styleSheetVarName := id.name;
        var styleNamesInThisSheet: seq<string> := [];
        var stylesObj := arguments[0];
        if stylesObj.ObjectExpression? {
          var props := stylesObj.properties;
          var i := 0;
          while i < |props|
            invariant 0 <= i <= |props|
            invariant definedOrder == InsertAll(old(definedOrder), StyleNames(props[..i]))
            invariant definedStyles == BindAll(old(definedStyles), props[..i])
            invariant styleNamesInThisSheet == InsertAll([], StyleNames(props[..i]))
            invariant usedStyles == old(usedStyles) && styleSheetMap == old(styleSheetMap)
          {
            DefineStep(old(definedStyles), props, i);
            match StyleKeyName(props[i]) {
              case Some(styleName) =>
                InsertAllSnoc(old(definedOrder), StyleNames(props[..i]), styleName);
                InsertAllSnoc([], StyleNames(props[..i]), styleName);
                definedStyles := definedStyles[styleName := props[i]];
                definedOrder := Insert(definedOrder, styleName);
                styleNamesInThisSheet := Insert(styleNamesInThisSheet, styleName);
              case None =>
            }
            i := i + 1;
          }
          assert props[..i] == props;
        }
        styleSheetMap := styleSheetMap[styleSheetVarName := styleNamesInThisSheet];
        DefineSheetSpec(old(State()), id, arguments);
      }
    }

    /** `names.forEach((name) => usedStyles.add(name))`. */
    method AddUsed(names: seq<string>)
      requires Valid()
      modifies this
      ensures Valid()
      ensures State() == MarkUsed(old(State()), names)
    {
      var i := 0;
      while i < |names|
        invariant 0 <= i <= |names|
        invariant usedStyles == old(usedStyles) + set x | x in names[..i]
        invariant definedOrder == old(definedOrder) && definedStyles == old(definedStyles)
        invariant styleSheetMap == old(styleSheetMap)
      {
        assert names[..i + 1] == names[..i] + [names[i]];
        usedStyles := usedStyles + {names[i]};
        i := i + 1;
      }
      assert names[..i] == names;
    }

    /** The `JSXAttribute` callback (src/rules/no-unused-styles.ts:157-170). */
    method OnJsxAttribute(name: AttributeName, expression: Option<Node>)
      requires Valid()
      modifies this
      ensures Valid()
      ensures State() == SymbolTable.OnJsxAttribute(old(State()), name, expression)
    {
      if IsStyleAttribute(name) && expression.Some? {
        var names := Extract(expression.value, styleSheetMap);
        AddUsed(names);
      }
    }

    /** The declarator-from-identifier callback (src/rules/no-unused-styles.ts:173-184). */
    method OnDestructure(id: Binding, initName: string)
      requires Valid()
      modifies this
      ensures Valid()
      ensures State() == SymbolTable.OnDestructure(old(State()), id, initName)
    {
      if initName in styleSheetMap && id.ObjectPattern? {
        var props := id.properties;
        var i := 0;
        while i < |props|
          invariant 0 <= i <= |props|
          invariant usedStyles == old(usedStyles) + set x | x in PatternNames(props[..i])
          invariant definedOrder == old(definedOrder) && definedStyles == old(definedStyles)
          invariant styleSheetMap == old(styleSheetMap)
        {
          assert props[..i + 1][..i] == props[..i];
          match PatternKeyName(props[i]) {
            case Some(keyName) => usedStyles := usedStyles + {keyName};
            case None =>
          }
          i := i + 1;
        }
        assert props[..i] == props;
      }
    }

    /** The `ReturnStatement` callback (src/rules/no-unused-styles.ts:187-192). */
    method OnReturn(argument: Option<Node>)
      requires Valid()
      modifies this
      ensures Valid()
      ensures State() == SymbolTable.OnReturn(old(State()), argument)
    {
      if argument.Some? {
        var names := Extract(argument.value, styleSheetMap);
        AddUsed(names);
      }
    }

    /** The `AssignmentExpression` callback (src/rules/no-unused-styles.ts:195-200). */
    method OnAssignment(right: Option<Node>)
      requires Valid()
      modifies this
      ensures Valid()
      ensures State() == SymbolTable.OnAssignment(old(State()), right)
    {
      if right.Some? {
        var names := Extract(right.value, styleSheetMap);
        AddUsed(names);
      }
    }

    /** The `Program:exit` callback (src/rules/no-unused-styles.ts:203-211):
        what it passes to `context.report`, in order. It changes nothing. */
    method OnProgramExit() returns (reports: seq<Finding>)
      requires Valid()
      ensures reports == Findings(State())
    {
      reports := [];
      var i := 0;
      while i < |definedOrder|
        invariant 0 <= i <= |definedOrder|
        invariant reports == Unused(definedOrder[..i], definedStyles, usedStyles)
      {
        assert definedOrder[..i + 1][..i] == definedOrder[..i];
        var styleName := definedOrder[i];
        if styleName !in usedStyles {
          reports := reports + [Finding(styleName, definedStyles[styleName])];
        }
        i := i + 1;
      }
      assert definedOrder[..i] == definedOrder;
    }

    /** The host calling the callback that matches the visited node. */
    method Dispatch(e: Event)
      requires Valid()
      modifies this
      ensures Valid()
      ensures State() == Apply(old(State()), e)
    {
      match e {
        case SheetDeclarator(id, arguments) => OnStyleSheetCreate(id, arguments);
        case Attribute(name, expression) => OnJsxAttribute(name, expression);
        case IdentifierDeclarator(id, initName) => OnDestructure(id, initName);
        case Return(argument) => OnReturn(argument);
        case Assign(right) => OnAssignment(right);
      }
    }
  }

  /** One file: a fresh rule object, the callbacks in the walker's order,
      then the final sweep. Its reports are those `Analyze` describes, so two
      runs over the same events report the same findings. */
  method AnalyzeFile(events: seq<Event>) returns (reports: seq<Finding>)
    ensures reports == Analyze(events)
  {
    var rule := new NoUnusedStyles();
    var i := 0;
    while i < |events|
      invariant 0 <= i <= |events|
      invariant rule.Valid() && rule.State() == Run(Empty, events[..i])
    {
      assert events[..i + 1][..i] == events[..i];
      rule.Dispatch(events[i]);
      i := i + 1;
    }
    assert events[..i] == events;
    reports := rule.OnProgramExit();
  }
}
