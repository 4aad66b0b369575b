# no-unused-styles, modelled in Dafny

This project models the ESLint rule `no-unused-styles`
(`src/rules/no-unused-styles.ts`), which reports React Native styles that are
defined in a `StyleSheet.create({...})` call but never referenced.

For each file, the rule keeps three collections:

- `definedStyles` maps each style name to the property node that defined it, in insertion order;
- `usedStyles` is the set of names seen in use;
- `styleSheetMap` maps each sheet variable to the set of its member names.

Visitor callbacks fill these collections as the host walks the syntax tree.
At `Program:exit`, the rule reports every defined name that was never used.

The project has five modules:

- `StyleAst` (`ast.dfy`): the slice of the ESTree/JSX tree that the rule
  distinguishes, as a closed datatype. Absent children are `None`, and every
  other shape is `Other`.
- `Extraction` (`extract.dfy`): `extractStyleNames` as the function
  `Extract(node, sheets)`.
  - Its partner is an independent description: `Sources(n)`, the nodes the
    extractor reaches, and `Emit(v, sheets)`, what one node contributes by
    itself.
  - `ExtractMatchesSources` proves that the extracted names are exactly the
    names the reached nodes emit.
- `SymbolTable` (`table.dfy`): the per-file state as a value `Table`, and
  each callback as a function on it.
  - The insertion order of `definedStyles` is kept as a duplicate-free
    sequence of keys.
  - A file is a sequence of callback events, and `Analyze(events)` gives its
    reports.
  - The lemmas state what each callback does, what the sweep reports, and
    that a name used anywhere in the file is never reported.
- `Analyzer` (`analyzer.dfy`): the rule object as the class `NoUnusedStyles`.
  - Its fields are the three collections.
  - Each method is one visitor callback, with the source's `forEach` loops.
  - Each method is proved to produce exactly the table that the
    `SymbolTable` function of the same callback describes.
  - `AnalyzeFile` feeds a sequence of events to a fresh object and returns
    the sweep's reports.
- `Scenarios` (`scenarios.dfy`): the cases of
  `src/tests/rules/no-unused-styles.test.ts` as lemmas over arbitrary
  distinct names, and the dependence on callback order.

Where a tidier description of the rule would differ, the model follows the
code:

- **Member access.** `obj.prop` extracts `prop` whenever the object has a
  non-empty `name`, whether or not that name is a registered sheet (lines
  33-41). This includes accesses on objects such as `theme.primary`.
- **Attribute names.** The attribute test is `/[sS]tyle$/` (line 161): the
  name must end in `style` or `Style`. The test is not case-insensitive, so
  `STYLE` does not match.
- **Order of callbacks.** The whole-sheet identifier (line 69) and
  destructuring from a sheet (line 175) look up `styleSheetMap` at the time
  of the callback. `style={styles}` placed before `const styles =
  StyleSheet.create(...)` marks nothing.
- **Non-object argument.** A `StyleSheet.create` whose first argument is not
  an object literal still registers the sheet, with no members (line 152).
- **Truthiness.** JavaScript truthiness is kept:
  - an object `name` of `""` is falsy;
  - an empty key name or empty string key defines nothing;
  - string-literal keys count in a definition (lines 142-145) but not in a
    destructuring pattern (line 178).

## Model

| member | source | states |
|---|---|---|
| Extraction.ExtractMatchesSources | src/rules/no-unused-styles.ts:27-119 | a name is extracted from a node exactly when some node the extractor reaches emits it: a member access on a named object, or an identifier naming a registered sheet; array holes and absent operands are skipped, the conditional's test is reached |
| Extraction.ExtractMemberAccess | src/rules/no-unused-styles.ts:33-41 | a member access on a named object with an identifier property extracts exactly the property name, for any sheet map |
| Extraction.ExtractUnqualifiedMemberAccess | src/rules/no-unused-styles.ts:33-41 | a member access with an unnamed object or a non-identifier property extracts nothing |
| Extraction.ExtractSheetIdentifier | src/rules/no-unused-styles.ts:67-73 | an identifier naming a registered sheet extracts that sheet's members; any other identifier extracts nothing |
| Extraction.ExtractNothingWithoutReferences | src/rules/no-unused-styles.ts:27-119 | a node from which no member access or sheet identifier is reachable extracts the empty list |
| Extraction.ExtractArrayConcat | src/rules/no-unused-styles.ts:43-50 | the names of an array are those of its first part followed by those of the rest, in element order |
| Extraction.ExtractArrayUnion | src/rules/no-unused-styles.ts:43-50 | a name comes out of an array exactly when it comes out of one of its present elements |
| Extraction.ExtractObjectUnion | src/rules/no-unused-styles.ts:75-85 | a name comes out of an object literal exactly when it comes out of one of its members' spread argument or property value |
| SymbolTable.InsertAllSpec | src/rules/no-unused-styles.ts:146-147 | inserting keys one by one gives the existing keys followed by the new names in the order they first occur, each once; the keys stay duplicate-free |
| SymbolTable.BindAllSpec | src/rules/no-unused-styles.ts:139-149 | after the `set` loop the defined names are the old ones plus the object's key names; an untouched name keeps its node; a repeated name is bound to its last member |
| SymbolTable.StyleNamesSpec | src/rules/no-unused-styles.ts:139-149 | a style object defines exactly the names of its members whose key has a non-empty name or non-empty string value |
| SymbolTable.PatternNamesSpec | src/rules/no-unused-styles.ts:177-181 | a destructuring pattern yields exactly the names of its keys that are non-empty identifiers |
| SymbolTable.StyleSuffix | src/rules/no-unused-styles.ts:161 | the attribute test accepts a name exactly when it is some prefix followed by `style` or `Style` |
| SymbolTable.StyleSuffixEdges | src/rules/no-unused-styles.ts:161 | `style` and `contentContainerStyle` match; `STYLE`, `stYle` and `styles` do not |
| SymbolTable.DefineSheetSpec | src/rules/no-unused-styles.ts:126-153 | a sheet declaration keeps the table well formed; it appends the object's new key names to the key order in the order they first occur, so they are reported in that order; it defines exactly the object's key names (last member wins) and keeps other definitions; it replaces the sheet's member set with those names in first-occurrence order; it leaves other sheets and the used set alone |
| SymbolTable.InsertAllKeepsPosition | src/rules/no-unused-styles.ts:146-147 | inserting names never moves a key that is already present |
| SymbolTable.RedefinitionKeepsPosition | src/rules/no-unused-styles.ts:146 | a style already defined keeps its position in the key order after any sheet declaration |
| SymbolTable.UsageSpec | src/rules/no-unused-styles.ts:165-167 | adding names to the used set adds exactly those names and changes nothing else |
| SymbolTable.AttributeSpec | src/rules/no-unused-styles.ts:157-170 | a JSX attribute adds exactly the names its expression extracts when its name ends in `style`/`Style` and it has an expression, nothing otherwise |
| SymbolTable.DestructureSpec | src/rules/no-unused-styles.ts:173-184 | destructuring from a registered sheet into an object pattern adds exactly the pattern's identifier keys; any other declarator adds nothing |
| SymbolTable.ReturnSpec | src/rules/no-unused-styles.ts:187-192 | a return adds exactly the names its argument extracts, and a bare return adds nothing |
| SymbolTable.AssignmentSpec | src/rules/no-unused-styles.ts:195-200 | an assignment adds exactly the names its right-hand side extracts |
| SymbolTable.ApplySpec | src/rules/no-unused-styles.ts:121-213 | every callback keeps the table well formed, never removes a used name, and never moves or removes a defined name; only a sheet declaration touches definitions and sheets |
| SymbolTable.Run | src/rules/no-unused-styles.ts:121-213 | a sequence of callbacks keeps the table well formed, only grows the used set, and keeps the key order as a prefix |
| SymbolTable.UnusedSpec | src/rules/no-unused-styles.ts:204-211 | the sweep over duplicate-free keys reports exactly the unused keys, each with its defining node, in key order |
| SymbolTable.FindingsSpec | src/rules/no-unused-styles.ts:203-211 | `Program:exit` reports exactly the defined names not in the used set, once each, with their defining nodes, in definition order |
| SymbolTable.AllUsedNoFindings | src/rules/no-unused-styles.ts:203-211 | when every defined name is used, nothing is reported |
| SymbolTable.NoSheetNoFindings | src/rules/no-unused-styles.ts:203-211 | a file with no `StyleSheet.create` declarator defines nothing and gets no reports |
| SymbolTable.UsedNeverReported | src/rules/no-unused-styles.ts:157-211 | a name that any callback marks as used is not reported, whatever callbacks come after it |
| SymbolTable.AttributeUseNeverReported | src/rules/no-unused-styles.ts:157-170 | no name extracted from a style attribute's expression, with the sheets registered at that point, is reported |
| SymbolTable.MemberAccessNeverReported | src/rules/no-unused-styles.ts:33-41 | `style={s.x}` anywhere in the file keeps `x` from being reported, whether `s` is declared before or after |
| SymbolTable.WholeSheetNeverReported | src/rules/no-unused-styles.ts:67-73 | `style={s}` after `s` is registered keeps every member of `s` from being reported |
| SymbolTable.DestructuredNeverReported | src/rules/no-unused-styles.ts:173-184 | destructuring from a registered sheet keeps every identifier key of the pattern from being reported |
| SymbolTable.ReturnOrAssignmentNeverReported | src/rules/no-unused-styles.ts:187-200 | no name extracted from a returned value or an assigned value is reported |
| Analyzer.NoUnusedStyles.constructor | src/rules/no-unused-styles.ts:20-24 | a new rule object starts with an empty, well-formed table |
| Analyzer.NoUnusedStyles.OnStyleSheetCreate | src/rules/no-unused-styles.ts:124-154 | the declarator callback's loop leaves exactly the table the definition function describes and keeps it well formed |
| Analyzer.NoUnusedStyles.AddUsed | src/rules/no-unused-styles.ts:165-167 | the `usedStyles.add` loop leaves the used set as the old set plus exactly the given names, and changes nothing else |
| Analyzer.NoUnusedStyles.OnJsxAttribute | src/rules/no-unused-styles.ts:157-170 | the JSX attribute callback leaves exactly the table the attribute function describes |
| Analyzer.NoUnusedStyles.OnDestructure | src/rules/no-unused-styles.ts:173-184 | the destructuring callback's loop leaves exactly the table the destructuring function describes |
| Analyzer.NoUnusedStyles.OnReturn | src/rules/no-unused-styles.ts:187-192 | the return callback leaves exactly the table the return function describes |
| Analyzer.NoUnusedStyles.OnAssignment | src/rules/no-unused-styles.ts:195-200 | the assignment callback leaves exactly the table the assignment function describes |
| Analyzer.NoUnusedStyles.OnProgramExit | src/rules/no-unused-styles.ts:203-211 | the sweep loop returns exactly the findings of the current table: the unused defined names in definition order, with their nodes; it changes nothing |
| Analyzer.NoUnusedStyles.Dispatch | src/rules/no-unused-styles.ts:121-213 | running the callback for an event leaves exactly the table that applying the event describes |
| Analyzer.AnalyzeFile | src/rules/no-unused-styles.ts:18-214 | a fresh rule object fed the events in order reports exactly `Analyze(events)` |
| Scenarios.UnusedStyleIsReported | src/tests/rules/no-unused-styles.test.ts:62-84 | a sheet with two styles of which only one is used through `s.x` yields exactly one report, for the other style, with its property node |
| Scenarios.UsedStyleIsNotReported | src/tests/rules/no-unused-styles.test.ts:24-38 | a sheet whose only style is used through `s.x` in JSX returned earlier yields no report |
| Scenarios.ArrayOfStylesIsNotReported | src/tests/rules/no-unused-styles.test.ts:41-57 | a sheet with two styles both used through the array `[s.x, s.y]` yields no report |
| Scenarios.WholeSheetBeforeDeclarationIsReported | src/rules/no-unused-styles.ts:67-73 | `style={s}` visited before `s` is declared marks nothing, so the sheet's style is reported |
| Scenarios.WholeSheetAfterDeclarationIsNotReported | src/rules/no-unused-styles.ts:67-73 | `style={s}` visited after `s` is declared marks the whole sheet, so nothing is reported |

## Left out

- ESLint host plumbing (src/rules/no-unused-styles.ts:7-17): the rule's `meta` object and `context`.
- The esquery selector strings (lines 123 and 173) are left out. They become event constructors: `SheetDeclarator` stands for a declarator whose init calls `StyleSheet.create`, and `IdentifierDeclarator` for one whose init is an identifier.
- `context.report` (line 206) and its message text are left out. The model returns the `(name, node)` pairs in order. The English message in the code and the Japanese one the test expects are not modelled.
- The regular-expression engine: `/[sS]tyle$/` is the suffix predicate `EndsWithStyle`.
- Tree traversal and parsing: the caller supplies the callbacks as a sequence of events, in the order the host's walker would make them.
- Plugin registration and the default export (src/index.ts and src/rules/no-unused-styles.ts:217-221).
- The `RuleTester` setup and the parser configuration (src/tests/rules/no-unused-styles.test.ts:5-18).
- Node shapes the rule does not distinguish are all `Other`.
  - Their fields are not modelled.
  - Exception: the `name` of a member-access object, which is `MemberExpression.objectName`.
  - A JSX namespaced attribute name is never a style attribute. Its `name.name` is an object, whose string form does not end in `style`.
- The contents of a style's value object are not modelled. Only its key and the defining property node matter.
