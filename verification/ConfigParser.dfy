/** The top level of the configuration: one pass over the document's nodes, overriding each
    section at most once and collecting sessions. The section decoders other than `session`
    (palette, status bar, keymap and the like) are a parameter: each reads only its own node. */
module ConfigParser {
  import opened Prelude
  import opened Kdl
  import opened Templates
  import opened SessionDecoder

  /** The singleton top-level nodes, their built-in values and their decoder. */
  datatype Schema<V> = Schema(sections: set<string>, defaults: map<string, V>, decode: Node -> Result<V, Error>) {
    predicate Valid() { "session" !in sections }
  }

  /** The eleven sections of the configuration file. */
  function FileSchema<V>(defaults: map<string, V>, decode: Node -> Result<V, Error>): (g: Schema<V>)
    ensures g.Valid()
  {
    Schema({"palette", "status", "keymap", "blocks", "hints", "mouse", "notifications", "glyphs",
            "auto-rename", "welcome", "remotes"}, defaults, decode)
  }

  datatype Config<V> = Config(settings: map<string, V>, sessions: seq<SessionTemplate>)

  /** The configuration so far, and the sections met so far. */
  datatype State<V> = State(config: Config<V>, seen: set<string>)

  predicate DeclaresSession(ss: seq<SessionTemplate>, name: string) {
    exists i :: 0 <= i < |ss| && ss[i].name == name
  }

  function Step<V>(st: State<V>, n: Node, g: Schema<V>): Result<State<V>, Error> {
    if n.name in g.sections then
      if n.name in st.seen then Err(DuplicateNode(n.name))
      else
        var v :- g.decode(n);
        Ok(State(st.config.(settings := st.config.settings[n.name := v]), st.seen + {n.name}))
    else if n.name == "session" then
      var s :- SessionOf(n);
      if DeclaresSession(st.config.sessions, s.name) then Err(DuplicateSession(s.name))
      else Ok(st.(config := st.config.(sessions := st.config.sessions + [s])))
    else Err(UnknownTopLevel(n.name))
  }

  /** The nodes taken one after another, stopping at the first error. */
  function Parse<V>(ns: seq<Node>, g: Schema<V>): Result<State<V>, Error> {
    if ns == [] then Ok(State(Config(g.defaults, []), {}))
    else
      var st :- Parse(ns[..|ns| - 1], g);
      Step(st, ns[|ns| - 1], g)
  }

  lemma {:induction false} ErrorSticks<V>(ns: seq<Node>, i: nat, g: Schema<V>)
    requires i <= |ns| && Parse(ns[..i], g).Err?
    ensures Parse(ns, g) == Parse(ns[..i], g)
    decreases |ns|
  {
    if i < |ns| {
      assert ns[..|ns| - 1][..i] == ns[..i];
      ErrorSticks(ns[..|ns| - 1], i, g);
    } else {
      assert ns[..i] == ns;
    }
  }

  method ParseConfig<V>(ns: seq<Node>, g: Schema<V>)
    returns (r: Result<Config<V>, Error>)
    ensures match Parse(ns, g)
            case Ok(st) => r == Ok(st.config)
            case Err(e) => r == Err(e)
  {
    var settings, sessions := g.defaults, [];
    var seen: set<string> := {};
    for i := 0 to |ns|
      invariant Parse(ns[..i], g) == Ok(State(Config(settings, sessions), seen))
    {
      var n := ns[i];
      assert ns[..i + 1][..i] == ns[..i];
      if Parse(ns[..i + 1], g).Err? {
        ErrorSticks(ns, i + 1, g);
      }
      if n.name in g.sections {
        if n.name in seen { return Err(DuplicateNode(n.name)); }
        seen := seen + {n.name};
        var v := g.decode(n);
        if v.Err? { return Err(v.error); }
        settings := settings[n.name := v.value];
      } else if n.name == "session" {
        var s := DecodeSession(n);
        if s.Err? { return Err(s.error); }
        if DeclaresSession(sessions, s.value.name) { return Err(DuplicateSession(s.value.name)); }
        sessions := sessions + [s.value];
      } else {
        return Err(UnknownTopLevel(n.name));
      }
    }
    assert ns[..|ns|] == ns;
    r := Ok(Config(settings, sessions));
  }

  // --- which documents are accepted, and what they mean ---

  /** The sessions the nodes declare, in document order. */
  function Sessions(ns: seq<Node>): seq<SessionTemplate> {
    if ns == [] then []
    else
      var last := SessionOf(ns[|ns| - 1]);
      Sessions(ns[..|ns| - 1]) + (if last.Ok? then [last.value] else [])
  }

  predicate UniqueNames(ss: seq<SessionTemplate>) {
    forall i, j :: 0 <= i < j < |ss| ==> ss[i].name != ss[j].name
  }

  predicate WellFormedNode<V>(n: Node, g: Schema<V>) {
    || (n.name in g.sections && g.decode(n).Ok?)
    || (n.name == "session" && SessionOf(n).Ok?)
  }

  /** A condition on the document alone, blind to the order of its sections. */
  ghost predicate Acceptable<V>(ns: seq<Node>, g: Schema<V>) {
    && (forall n :: n in ns ==> WellFormedNode(n, g))
    && (forall s :: s in g.sections ==> |ChildrenNamed(ns, s)| <= 1)
    && UniqueNames(Sessions(ChildrenNamed(ns, "session")))
  }

  ghost predicate Overridden<V>(settings: map<string, V>, ns: seq<Node>, g: Schema<V>, s: string) {
    var found := ChildrenNamed(ns, s);
    if s in g.sections && found != [] && g.decode(found[0]).Ok? then
      s in settings && settings[s] == g.decode(found[0]).value
    else
      (s in settings <==> s in g.defaults) && (s in settings ==> settings[s] == g.defaults[s])
  }

  /** `settings` holds, for every section the document has, what its node decodes to, and the
      defaults everywhere else. */
  ghost predicate Overrides<V>(settings: map<string, V>, ns: seq<Node>, g: Schema<V>) {
    forall s: string :: Overridden(settings, ns, g, s)
  }

  ghost predicate Summarises<V>(st: State<V>, ns: seq<Node>, g: Schema<V>) {
    && st.config.sessions == Sessions(ChildrenNamed(ns, "session"))
    && (forall s :: s in st.seen <==> s in g.sections && ChildrenNamed(ns, s) != [])
    && Overrides(st.config.settings, ns, g)
  }

  lemma NamedSnoc(ns: seq<Node>, n: Node)
    ensures forall s: string :: ChildrenNamed(ns + [n], s) == ChildrenNamed(ns, s) + (if n.name == s then [n] else [])
  {
    forall s: string
      ensures ChildrenNamed(ns + [n], s) == ChildrenNamed(ns, s) + (if n.name == s then [n] else [])
    {
      FilterAppend(ns, [n], (n: Node) => Named(n, s));
    }
  }

  lemma SessionsSnoc(ns: seq<Node>, n: Node)
    requires SessionOf(n).Ok?
    ensures Sessions(ns + [n]) == Sessions(ns) + [SessionOf(n).value]
  {
    assert (ns + [n])[..|ns|] == ns;
  }

  lemma UniqueSnoc(ss: seq<SessionTemplate>, s: SessionTemplate)
    ensures UniqueNames(ss + [s]) <==> UniqueNames(ss) && !DeclaresSession(ss, s.name)
  {
    var all := ss + [s];
    if UniqueNames(all) {
      forall i, j | 0 <= i < j < |ss| ensures ss[i].name != ss[j].name {
        assert all[i] == ss[i] && all[j] == ss[j];
      }
      forall i | 0 <= i < |ss| ensures ss[i].name != s.name {
        assert all[i] == ss[i] && all[|ss|] == s;
      }
    }
  }

  lemma SectionsSnoc<V>(ns: seq<Node>, n: Node, g: Schema<V>)
    ensures (forall s :: s in g.sections ==> |ChildrenNamed(ns + [n], s)| <= 1) <==>
            && (forall s :: s in g.sections ==> |ChildrenNamed(ns, s)| <= 1)
            && (n.name in g.sections ==> ChildrenNamed(ns, n.name) == [])
  {
    NamedSnoc(ns, n);
    forall s | s in g.sections
      ensures |ChildrenNamed(ns + [n], s)| <= 1 <==>
              |ChildrenNamed(ns, s)| <= 1 && (n.name == s ==> ChildrenNamed(ns, s) == [])
    {
    }
  }

  /** How each part of `Acceptable` changes when one more node is read. */
  lemma AcceptableParts<V>(ns: seq<Node>, n: Node, g: Schema<V>)
    requires g.Valid()
    ensures Acceptable(ns + [n], g) <==>
            && Acceptable(ns, g)
            && WellFormedNode(n, g)
            && (n.name in g.sections ==> ChildrenNamed(ns, n.name) == [])
            && (n.name == "session" ==>
                !DeclaresSession(Sessions(ChildrenNamed(ns, "session")), SessionOf(n).value.name))
  {
    NamedSnoc(ns, n);
    var all := ns + [n];
    var before, after := ChildrenNamed(ns, "session"), ChildrenNamed(all, "session");
    assert (forall m :: m in all ==> WellFormedNode(m, g)) <==>
           (forall m :: m in ns ==> WellFormedNode(m, g)) && WellFormedNode(n, g) by {
      assert n in all && forall m :: m in all <==> m in ns || m == n;
    }
    SectionsSnoc(ns, n, g);
    if WellFormedNode(n, g) {
      if n.name == "session" {
        SessionsSnoc(before, n);
        UniqueSnoc(Sessions(before), SessionOf(n).value);
      } else {
        assert after == before;
      }
    }
  }

  lemma OverridesSnoc<V>(settings: map<string, V>, ns: seq<Node>, n: Node, g: Schema<V>)
    requires Overrides(settings, ns, g)
    requires n.name in g.sections ==> g.decode(n).Ok? && ChildrenNamed(ns, n.name) == []
    ensures Overrides(if n.name in g.sections then settings[n.name := g.decode(n).value] else settings, ns + [n], g)
  {
    NamedSnoc(ns, n);
    var now := if n.name in g.sections then settings[n.name := g.decode(n).value] else settings;
    forall s: string
      ensures Overridden(now, ns + [n], g, s)
    {
      assert Overridden(settings, ns, g, s);
    }
  }

  lemma SessionListSnoc(ns: seq<Node>, n: Node)
    requires n.name == "session" ==> SessionOf(n).Ok?
    ensures Sessions(ChildrenNamed(ns + [n], "session")) ==
            Sessions(ChildrenNamed(ns, "session")) + (if n.name == "session" then [SessionOf(n).value] else [])
  {
    NamedSnoc(ns, n);
    if n.name == "session" {
      SessionsSnoc(ChildrenNamed(ns, "session"), n);
    } else {
      assert ChildrenNamed(ns + [n], "session") == ChildrenNamed(ns, "session");
    }
  }

  lemma SeenSnoc(ns: seq<Node>, n: Node, sections: set<string>)
    ensures forall s :: s in sections ==>
              (ChildrenNamed(ns + [n], s) != [] <==> ChildrenNamed(ns, s) != [] || n.name == s)
  {
    NamedSnoc(ns, n);
  }

  /** One more node keeps the document acceptable exactly when the decoder takes it. */
  lemma AcceptableSnoc<V>(st: State<V>, ns: seq<Node>, n: Node, g: Schema<V>)
    requires g.Valid() && Acceptable(ns, g) && Summarises(st, ns, g)
    ensures Step(st, n, g).Ok? <==> Acceptable(ns + [n], g)
  {
    AcceptableParts(ns, n, g);
  }

  lemma SummarySnoc<V>(st: State<V>, ns: seq<Node>, n: Node, g: Schema<V>)
    requires g.Valid() && Summarises(st, ns, g) && Step(st, n, g).Ok?
    ensures Summarises(Step(st, n, g).value, ns + [n], g)
  {
    SessionListSnoc(ns, n);
    SeenSnoc(ns, n, g.sections);
    OverridesSnoc(st.config.settings, ns, n, g);
  }

  /** The loop accepts exactly the acceptable documents, and returns what they summarise to. */
  lemma {:induction false} ParseCharacterised<V>(ns: seq<Node>, g: Schema<V>)
    requires g.Valid()
    ensures Parse(ns, g).Ok? <==> Acceptable(ns, g)
    ensures Parse(ns, g).Ok? ==> Summarises(Parse(ns, g).value, ns, g)
  {
    if ns == [] {
      assert forall s: string :: ChildrenNamed(ns, s) == [];
    } else {
      var front, last := ns[..|ns| - 1], ns[|ns| - 1];
      assert ns == front + [last];
      ParseCharacterised(front, g);
      if Parse(front, g).Ok? {
        var st := Parse(front, g).value;
        AcceptableSnoc(st, front, last, g);
        if Step(st, last, g).Ok? {
          SummarySnoc(st, front, last, g);
        }
      } else if Acceptable(ns, g) {
        AcceptableParts(front, last, g);
      }
    }
  }

  lemma SessionsValid(ns: seq<Node>)
    ensures forall s :: s in Sessions(ns) ==> ValidSession(s)
  {
    if ns != [] {
      SessionsValid(ns[..|ns| - 1]);
      if SessionOf(ns[|ns| - 1]).Ok? {
        SessionOfIsValid(ns[|ns| - 1]);
      }
    }
  }

  /** Every accepted configuration has unique session names and only valid sessions. */
  lemma AcceptedConfigIsValid<V>(ns: seq<Node>, g: Schema<V>)
    requires g.Valid() && Parse(ns, g).Ok?
    ensures var c := Parse(ns, g).value.config;
            UniqueNames(c.sessions) && forall s :: s in c.sessions ==> ValidSession(s)
  {
    ParseCharacterised(ns, g);
    SessionsValid(ChildrenNamed(ns, "session"));
  }

  /** In an accepted configuration file every top-level node is a session or one of the eleven
      sections, none of which is given twice. */
  lemma AcceptedFile<V>(ns: seq<Node>, defaults: map<string, V>, decode: Node -> Result<V, Error>)
    requires Parse(ns, FileSchema(defaults, decode)).Ok?
    ensures var sections := FileSchema(defaults, decode).sections;
            && (forall n :: n in ns ==> n.name == "session" || n.name in sections)
            && (forall s :: s in sections ==> |ChildrenNamed(ns, s)| <= 1)
  {
    ParseCharacterised(ns, FileSchema(defaults, decode));
    hide FileSchema, Parse;
  }

  lemma AcceptablePermutation<V>(a: seq<Node>, b: seq<Node>, g: Schema<V>)
    requires multiset(a) == multiset(b)
    requires ChildrenNamed(a, "session") == ChildrenNamed(b, "session")
    ensures Acceptable(a, g) ==> Acceptable(b, g)
  {
    forall s: string
      ensures |ChildrenNamed(a, s)| == |ChildrenNamed(b, s)|
    {
      FilterMultiset(a, b, (n: Node) => Named(n, s));
    }
    forall n | n in b
      ensures n in a
    {
      assert n in multiset(b);
    }
  }

  lemma SameSummary<V>(a: seq<Node>, b: seq<Node>, sa: State<V>, sb: State<V>, g: Schema<V>)
    requires multiset(a) == multiset(b)
    requires ChildrenNamed(a, "session") == ChildrenNamed(b, "session")
    requires Acceptable(a, g) && Acceptable(b, g)
    requires Summarises(sa, a, g) && Summarises(sb, b, g)
    ensures sa.config == sb.config
  {
    forall s: string
      ensures s in sa.config.settings <==> s in sb.config.settings
      ensures s in sa.config.settings ==> sa.config.settings[s] == sb.config.settings[s]
    {
      assert Overridden(sa.config.settings, a, g, s);
      assert Overridden(sb.config.settings, b, g, s);
      if s in g.sections {
        var p := (n: Node) => Named(n, s);
        FilterMultiset(a, b, p);
        var fa, fb := Filter(a, p), Filter(b, p);
        assert fa == ChildrenNamed(a, s) && fb == ChildrenNamed(b, s);
        if fa != [] {
          assert fa == [fa[0]] && fb == [fb[0]];
          assert fa[0] in multiset(fb);
        }
      }
    }
    assert sa.config.settings == sb.config.settings;
  }

  /** Reordering the top-level nodes changes nothing, so long as the sessions keep their relative
      order: the document is accepted or rejected alike, with the same configuration. */
  lemma SectionOrderIndependence<V>(a: seq<Node>, b: seq<Node>, g: Schema<V>)
    requires multiset(a) == multiset(b)
    requires ChildrenNamed(a, "session") == ChildrenNamed(b, "session")
    requires g.Valid()
    ensures Parse(a, g).Ok? <==> Parse(b, g).Ok?
    ensures Parse(a, g).Ok? ==>
              Parse(a, g).value.config == Parse(b, g).value.config
  {
    AcceptablePermutation(a, b, g);
    AcceptablePermutation(b, a, g);
    ParseCharacterised(a, g);
    ParseCharacterised(b, g);
    if Parse(a, g).Ok? {
      SameSummary(a, b, Parse(a, g).value, Parse(b, g).value, g);
    }
  }
}
