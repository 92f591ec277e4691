/** The KDL v2 document tree the configuration decoder walks, and the entry and child lookups it
    walks it with. A node without a children block and one with an empty block are the same
    here: every lookup below treats them alike. */
module Kdl {
  import opened Prelude

  datatype Value =
    | Str(s: string)
    | Integer(i: int)
    | Bool(b: bool)
    | Other  // a float or #null: no session decoder accepts one

  datatype Entry = Entry(name: Option<string>, value: Value)

  datatype Node = Node(name: string, entries: seq<Entry>, children: seq<Node>)

  /** Which check rejected the document. Message text and line/column are not modelled. */
  datatype Error =
    | MissingString(what: string)
    | UnknownProperty(property: string, node: string)
    | UnknownChild(child: string, node: string)
    | NotAString(key: string)
    | NotABool(key: string)
    | NoWindows(session: string)
    | ManyActiveWindows(session: string)
    | NoLayout(window: string)
    | ManyLayouts(window: string)
    | ManyActivePanes(window: string)
    | NotALayout(node: string)
    | BadDirection(got: string)
    | TooFewChildren
    | RatioNotInteger
    | RatioOutOfRange
    | RatioZero
    | ManyEnvBlocks
    | DuplicateSession(session: string)
    | DuplicateNode(node: string)
    | UnknownTopLevel(node: string)
    | BadSection(node: string)

  /** The first positional argument (an entry without a name). */
  function Argument(es: seq<Entry>): Option<Value> {
    if es == [] then None
    else if es[0].name.None? then Some(es[0].value)
    else Argument(es[1..])
  }

  function StringArgument(n: Node, what: string): Result<string, Error> {
    match Argument(n.entries)
    case Some(Str(s)) => Ok(s)
    case _ => Err(MissingString(what))
  }

  /** The value of property `key`; the last occurrence wins. */
  function Property(es: seq<Entry>, key: string): Option<Value> {
    if es == [] then None
    else
      var last := es[|es| - 1];
      if last.name == Some(key) then Some(last.value) else Property(es[..|es| - 1], key)
  }

  function StringProperty(n: Node, key: string): Result<Option<string>, Error> {
    match Property(n.entries, key)
    case None => Ok(None)
    case Some(Str(s)) => Ok(Some(s))
    case _ => Err(NotAString(key))
  }

  function BoolProperty(n: Node, key: string): Result<Option<bool>, Error> {
    match Property(n.entries, key)
    case None => Ok(None)
    case Some(Bool(b)) => Ok(Some(b))
    case _ => Err(NotABool(key))
  }

  /** Fails on the first property whose key is not allowed; positional arguments are ignored. */
  function OnlyProperties(es: seq<Entry>, allowed: seq<string>, node: string): Result<(), Error> {
    if es == [] then Ok(())
    else if es[0].name.Some? && es[0].name.value !in allowed then
      Err(UnknownProperty(es[0].name.value, node))
    else OnlyProperties(es[1..], allowed, node)
  }

  /** Fails on the first child whose name is not allowed. */
  function OnlyChildren(ns: seq<Node>, allowed: seq<string>, node: string): Result<(), Error> {
    if ns == [] then Ok(())
    else if ns[0].name !in allowed then Err(UnknownChild(ns[0].name, node))
    else OnlyChildren(ns[1..], allowed, node)
  }

  predicate Named(n: Node, name: string) { n.name == name }

  function ChildrenNamed(ns: seq<Node>, name: string): seq<Node> {
    Filter(ns, (n: Node) => Named(n, name))
  }

  function ChildrenNotNamed(ns: seq<Node>, name: string): seq<Node> {
    Filter(ns, (n: Node) => !Named(n, name))
  }

  lemma {:induction false} PropertyAppend(a: seq<Entry>, b: seq<Entry>, key: string)
    ensures Property(a + b, key) == if Property(b, key).Some? then Property(b, key) else Property(a, key)
  {
    if b == [] {
      assert a + b == a;
    } else {
      assert (a + b)[..|a + b| - 1] == a + b[..|b| - 1];
      PropertyAppend(a, b[..|b| - 1], key);
    }
  }

  lemma {:induction false} OnlyPropertiesAppend(a: seq<Entry>, b: seq<Entry>, allowed: seq<string>, node: string)
    requires OnlyProperties(a, allowed, node).Ok?
    ensures OnlyProperties(a + b, allowed, node) == OnlyProperties(b, allowed, node)
  {
    if a == [] {
      assert a + b == b;
    } else {
      assert (a + b)[1..] == a[1..] + b;
      OnlyPropertiesAppend(a[1..], b, allowed, node);
    }
  }

  lemma {:induction false} ArgumentFirst(e: Entry, rest: seq<Entry>)
    requires e.name.None?
    ensures Argument([e] + rest) == Some(e.value)
  {
    assert ([e] + rest)[0] == e;
  }
}
