/**
 The slice of the ESTree/JSX syntax tree that the no-unused-styles rule looks at.

 The rule inspects nodes by their `type` tag and by loosely probing optional
 fields; here every shape it distinguishes is a constructor of a closed
 datatype, an absent child is `None`, and every shape it does not
 distinguish is `Other`.
 */
module StyleAst {

  datatype Option<+T> = None | Some(value: T)

  /** The value of a `Literal` node: only string values matter to the rule. */
  datatype LiteralValue =
    | StringValue(text: string)
    | NonStringValue   // number, boolean, null, regular expression, bigint

  datatype Node =
      /** `object.property`; `objectName` is the object's `name` field, `None`
          when the object has none (a call, `this`, a nested member access). */
    | MemberExpression(objectName: Option<string>, property: Option<Node>)
      /** `[a, , b]`; a hole is `None`. */
    | ArrayExpression(elements: seq<Option<Node>>)
    | SpreadElement(argument: Option<Node>)
    | ConditionalExpression(test: Option<Node>, consequent: Option<Node>, alternate: Option<Node>)
    | Identifier(name: string)
      /** `{ ... }`; its members are `Property` or `SpreadElement` nodes. */
    | ObjectExpression(properties: seq<Node>)
      /** A key/value pair of an object literal or of an object pattern. */
    | Property(key: Option<Node>, value: Option<Node>)
    | LogicalExpression(left: Option<Node>, right: Option<Node>)
    | BinaryExpression(left: Option<Node>, right: Option<Node>, argument: Option<Node>)
    | UnaryExpression(left: Option<Node>, right: Option<Node>, argument: Option<Node>)
    | UpdateExpression(left: Option<Node>, right: Option<Node>, argument: Option<Node>)
    | Literal(literal: LiteralValue)
      /** Every other node shape (calls, functions, JSX elements, templates, ...). */
    | Other

  /** The `id` of a variable declarator. */
  datatype Binding =
    | BindingName(name: string)
      /** `{ a, b: c, ...rest }`; its members are `Property` nodes (rest elements are `Other`). */
    | ObjectPattern(properties: seq<Node>)
    | OtherPattern   // array patterns and the like

  /** The name of a JSX attribute. */
  datatype AttributeName =
    | PlainName(name: string)
      /** `ns:name`: its `name.name` is an object, never a string. */
    | NamespacedName(namespace: string, local: string)

  /** JavaScript truthiness of an optional string field: absent and "" are falsy. */
  predicate Truthy(s: Option<string>)
  {
    s.Some? && s.value != ""
  }
}
