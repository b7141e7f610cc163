/**
 * Concrete descriptors run through the model: what `createNestedEntryData`
 * builds from them and what `build` then makes of it.
 */
module Scenarios {
  import opened Wrappers
  import opened Php
  import opened Validation
  import opened QueryTrace
  import opened ClauseTree
  import opened EntryData
  import opened EntryDataFacts

  /** A one-item list builds one child, or records the item's failure. */
  lemma ParseSingle(k: Key, item: Value)
    ensures ParseItems([Entry(k, item)]) ==
      match ParseItem(item)
      case Ok(c) => Built([c], None)
      case Err(e) => Built([], Some(e))
  {
    assert [Entry(k, item)][..0] == [];
  }

  /** A two-item list whose items both parse builds their two children in order. */
  lemma ParsePair(e0: Entry, e1: Entry)
    requires ParseItem(e0.val).Ok? && ParseItem(e1.val).Ok?
    ensures ParseItems([e0, e1]) == Built([ParseItem(e0.val).value, ParseItem(e1.val).value], None)
  {
    assert [e0, e1][..1] == [e0];
    ParseSingle(e0.key, e0.val);
  }

  /** Building a single clause makes exactly its own calls. */
  lemma CompileSingle(a: Node)
    ensures CompileAll([a]) == Compile(a)
  {
    assert [a][..0] == [];
  }

  /** Building two clauses in turn makes their calls in turn. */
  lemma CompilePair(a: Node, b: Node)
    ensures CompileAll([a, b]) == Compile(a) + Compile(b)
  {
    assert [a, b][..1] == [a];
    CompileSingle(a);
  }

  /** `['field' => 'title', 'operator' => '>', 'value' => '5']` parses to the clause `entries.title > '5'`. */
  lemma TitleAboveFiveParses()
    ensures ParseItem(Array([Entry(Name("field"), Str("title")), Entry(Name("operator"), Str(">")), Entry(Name("value"), Str("5"))]))
      == Ok(Node(Null, "=", Null, "and", [Node(Str("entries.title"), ">", Str("5"), "and", [])]))
  {
    assert "entries." + "title" == "entries.title";
    DefaultsAreValid();
    var e0, e1, e2 := Entry(Name("field"), Str("title")), Entry(Name("operator"), Str(">")), Entry(Name("value"), Str("5"));
    var item := Array([e0, e1, e2]);
    GetInTriple(e0, e1, e2, "relation"); GetInPair(e1, e2, "relation");
    GetInTriple(e0, e1, e2, "field");
    GetInTriple(e0, e1, e2, "operator"); GetInPair(e1, e2, "operator");
    GetInTriple(e0, e1, e2, "value"); GetInPair(e1, e2, "value");
    LowerFixesExactlyLowerCase(">");
    assert IssetOr([e0, e1, e2], "operator", Str("=")) == Str(">");
    assert NormalizeOperator(Str(">")) == Ok(">");
    EntryColumnResolvesToOneClause(item, "title", Str("5"), "and");
  }

  /** The same descriptor as a one-item filter list: one child, built as a grouped `where` around `entries.title > '5'`. */
  lemma TitleAboveFive()
    ensures var item := Array([Entry(Name("field"), Str("title")), Entry(Name("operator"), Str(">")), Entry(Name("value"), Str("5"))]);
      ParseItems([Entry(Index(0), item)])
        == Built([Node(Null, "=", Null, "and", [Node(Str("entries.title"), ">", Str("5"), "and", [])])], None) &&
      CompileAll(ParseItems([Entry(Index(0), item)]).children)
        == [Nested(false, [Where(false, Str("entries.title"), ">", Str("5"))])]
  {
    var item := Array([Entry(Name("field"), Str("title")), Entry(Name("operator"), Str(">")), Entry(Name("value"), Str("5"))]);
    var leaf := Node(Str("entries.title"), ">", Str("5"), "and", []);
    var child := Node(Null, "=", Null, "and", [leaf]);
    TitleAboveFiveParses();
    ParseSingle(Index(0), item);
    CompileSingle(leaf);
    CompileSingle(child);
    assert LeafCall(leaf) == Some(Where(false, Str("entries.title"), ">", Str("5")));
  }

  /** `['field' => 'custom_attr', 'value' => 'X']`: a custom field, operator defaulted, becomes a tag clause and a data clause. */
  lemma CustomFieldWithDefaultOperator()
    ensures ParseItem(Array([Entry(Name("field"), Str("custom_attr")), Entry(Name("value"), Str("X"))]))
      == Ok(Node(Null, "=", Null, "and", [
           Node(Str(ShortTagColumn), "=", Str("custom_attr"), "and", []),
           Node(Str(DataColumn), "=", Str("X"), "and", [])
         ]))
  {
    DefaultsAreValid();
    var e0, e1 := Entry(Name("field"), Str("custom_attr")), Entry(Name("value"), Str("X"));
    var item := Array([e0, e1]);
    GetInPair(e0, e1, "relation");
    GetInPair(e0, e1, "field");
    GetInPair(e0, e1, "operator");
    GetInPair(e0, e1, "value");
    CustomFieldResolvesToTagAndData(item, Str("custom_attr"), Str("X"), "and");
  }

  /** `['field' => 'title']` raises for the missing value, and nothing is appended. */
  lemma MissingValueRaises()
    ensures ParseItems([Entry(Index(0), Array([Entry(Name("field"), Str("title"))]))])
      == Built([], Some(MissingFilterField))
  {
    DefaultsAreValid();
    var e0 := Entry(Name("field"), Str("title"));
    var item := Array([e0]);
    assert [e0][1..] == [];
    assert Get([e0][1..], "relation") == None;
    assert Get([e0], "relation") == None && Get([e0], "value") == None;
    MissingFieldOrValueRaises(item);
    ParseSingle(Index(0), item);
  }

  /** `['field' => 'title', 'value' => v]` parses to one clause `entries.title = v`, its operator defaulted. */
  lemma TitleEquals(v: string)
    ensures ParseItem(Array([Entry(Name("field"), Str("title")), Entry(Name("value"), Str(v))]))
      == Ok(Node(Null, "=", Null, "and", [Node(Str("entries.title"), "=", Str(v), "and", [])]))
  {
    DefaultsAreValid();
    var e0, e1 := Entry(Name("field"), Str("title")), Entry(Name("value"), Str(v));
    var item := Array([e0, e1]);
    GetInPair(e0, e1, "relation");
    GetInPair(e0, e1, "field");
    GetInPair(e0, e1, "operator");
    GetInPair(e0, e1, "value");
    EntryColumnResolvesToOneClause(item, "title", Str(v), "and");
    assert "entries." + "title" == "entries.title";
  }

  /**
   * `['relation' => 'or', [title = 'A'], [title = 'B']]`: the group is joined
   * to its siblings with `orWhere`, while its two descriptors keep relation
   * `and` and so are AND-ed with each other inside the group.
   */
  lemma OrGroupAndsItsMembers()
    ensures var group := Array([
        Entry(Name("relation"), Str("or")),
        Entry(Index(0), Array([Entry(Name("field"), Str("title")), Entry(Name("value"), Str("A"))])),
        Entry(Index(1), Array([Entry(Name("field"), Str("title")), Entry(Name("value"), Str("B"))]))
      ]);
      CompileAll(ParseItems([Entry(Index(0), group)]).children) == [
        Nested(true, [
          Nested(false, [Where(false, Str("entries.title"), "=", Str("A"))]),
          Nested(false, [Where(false, Str("entries.title"), "=", Str("B"))])
        ])
      ]
  {
    var a := Array([Entry(Name("field"), Str("title")), Entry(Name("value"), Str("A"))]);
    var b := Array([Entry(Name("field"), Str("title")), Entry(Name("value"), Str("B"))]);
    var e0, e1, e2 := Entry(Name("relation"), Str("or")), Entry(Index(0), a), Entry(Index(1), b);
    var group := Array([e0, e1, e2]);
    var g := OrGroupChildren(e0, e1, e2);
    GetInTriple(e0, e1, e2, "relation");
    LowerFixesExactlyLowerCase("or");
    assert NormalizeRelation(Str("or")) == Ok("or");
    GroupResolvesRecursively(group, "or");
    assert ParseItem(group) == Ok(Node(Null, "=", Null, "or", g));
    ParseSingle(Index(0), group);
    GroupCompiles(g);
  }

  /** The two members of the or-group parse to one AND-ed title clause each. */
  lemma OrGroupChildren(e0: Entry, e1: Entry, e2: Entry) returns (g: seq<Node>)
    requires e0 == Entry(Name("relation"), Str("or"))
    requires e1 == Entry(Index(0), Array([Entry(Name("field"), Str("title")), Entry(Name("value"), Str("A"))]))
    requires e2 == Entry(Index(1), Array([Entry(Name("field"), Str("title")), Entry(Name("value"), Str("B"))]))
    ensures g == [
      Node(Null, "=", Null, "and", [Node(Str("entries.title"), "=", Str("A"), "and", [])]),
      Node(Null, "=", Null, "and", [Node(Str("entries.title"), "=", Str("B"), "and", [])])
    ]
    ensures ParseItems(Unset([e0, e1, e2], "relation")) == Built(g, None)
  {
    TitleEquals("A");
    TitleEquals("B");
    assert [e0, e1, e2][1..] == [e1, e2] && [e1, e2][1..] == [e2] && [e2][1..] == [];
    assert Unset([e2], "relation") == [e2];
    assert Unset([e1, e2], "relation") == [e1, e2];
    assert Unset([e0, e1, e2], "relation") == [e1, e2];
    ParsePair(e1, e2);
    g := [
      Node(Null, "=", Null, "and", [Node(Str("entries.title"), "=", Str("A"), "and", [])]),
      Node(Null, "=", Null, "and", [Node(Str("entries.title"), "=", Str("B"), "and", [])])
    ];
  }

  /** The compiled form of the or-group's members: one closure each, holding its `where`. */
  lemma GroupCompiles(g: seq<Node>)
    requires g == [
      Node(Null, "=", Null, "and", [Node(Str("entries.title"), "=", Str("A"), "and", [])]),
      Node(Null, "=", Null, "and", [Node(Str("entries.title"), "=", Str("B"), "and", [])])
    ]
    ensures CompileAll([Node(Null, "=", Null, "or", g)]) == [
      Nested(true, [
        Nested(false, [Where(false, Str("entries.title"), "=", Str("A"))]),
        Nested(false, [Where(false, Str("entries.title"), "=", Str("B"))])
      ])
    ]
  {
    var ca, cb := g[0], g[1];
    var group := Node(Null, "=", Null, "or", g);
    assert g == [ca, cb] && ca.nested == [ca.nested[0]] && cb.nested == [cb.nested[0]];
    CompileSingle(group);
    CompilePair(ca, cb);
    CompileSingle(ca.nested[0]);
    CompileSingle(cb.nested[0]);
    assert LeafCall(ca.nested[0]) == Some(Where(false, Str("entries.title"), "=", Str("A")));
    assert LeafCall(cb.nested[0]) == Some(Where(false, Str("entries.title"), "=", Str("B")));
    assert Compile(ca) == [Nested(false, [Where(false, Str("entries.title"), "=", Str("A"))])];
    assert Compile(cb) == [Nested(false, [Where(false, Str("entries.title"), "=", Str("B"))])];
    assert CompileAll(g) == [
      Nested(false, [Where(false, Str("entries.title"), "=", Str("A"))]),
      Nested(false, [Where(false, Str("entries.title"), "=", Str("B"))])
    ];
    assert Compile(group) == [Nested(true, CompileAll(g))];
  }
}
