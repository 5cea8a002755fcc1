/**
 * The parameter definition file and the registry built from it
 * (`readParameterFile`, `NodeInfo::NodeInfo`, src/camera_driver.cpp:94-111,
 * 209-238). Each well-formed line `exposed-name type node-name` adds the
 * exposed name to an ordered list and, unless the name is already mapped, maps
 * it to the hardware node name and its type.
 */
module ParameterFile {
  import opened Wrappers
  import opened QuotedTokens

  /** The node types of `NodeInfo`; `InvalidNode` is what an unrecognised type string leaves. */
  datatype NodeType = FloatNode | IntNode | BoolNode | EnumNode | InvalidNode

  /** `NodeInfo`: the hardware node name and its type. */
  datatype NodeInfo = NodeInfo(name: string, nodeType: NodeType)

  /** The type a type string selects in the `NodeInfo` constructor. */
  function NodeTypeOf(s: string): NodeType {
    if s == "float" then FloatNode
    else if s == "int" then IntNode
    else if s == "bool" then BoolNode
    else if s == "enum" then EnumNode
    else InvalidNode
  }

  /** The type string a definition file uses for each valid node type. */
  function TypeName(t: NodeType): (r: string)
    requires t != InvalidNode
    ensures IsPlainWord(r)
  {
    match t
    case FloatNode => "float"
    case IntNode => "int"
    case BoolNode => "bool"
    case EnumNode => "enum"
  }

  /** Exactly the four type strings select a usable type, and each selects its own. */
  lemma NodeTypeOfInverse(t: NodeType, s: string)
    ensures t != InvalidNode ==> NodeTypeOf(TypeName(t)) == t
    ensures NodeTypeOf(s) != InvalidNode <==> s == "float" || s == "int" || s == "bool" || s == "enum"
    ensures NodeTypeOf(s) != InvalidNode ==> TypeName(NodeTypeOf(s)) == s
  {
  }

  /** How one tokenized line is treated. */
  datatype LineKind = Blank | Comment | Malformed | Definition(exposed: string, info: NodeInfo)

  predicate IsCommentToken(t: string) {
    t != [] && t[0] == '#'
  }

  function ParseLine(tokens: seq<string>): (r: LineKind)
    ensures r.Blank? <==> tokens == []
    ensures r.Comment? <==> tokens != [] && IsCommentToken(tokens[0])
    ensures r.Definition? <==> |tokens| == 3 && !IsCommentToken(tokens[0])
    ensures r.Definition? ==> r == Definition(tokens[0], NodeInfo(tokens[2], NodeTypeOf(tokens[1])))
  {
    if tokens == [] then Blank
    else if IsCommentToken(tokens[0]) then Comment
    else if |tokens| != 3 then Malformed
    else Definition(tokens[0], NodeInfo(tokens[2], NodeTypeOf(tokens[1])))
  }

  /** A line written as `name type node` (plain words, single spaces) is read back as that definition. */
  lemma {:induction false} DefinitionLineRoundTrip(exposed: string, t: NodeType, node: string)
    requires IsPlainWord(exposed) && !IsCommentToken(exposed)
    requires IsPlainWord(node) && t != InvalidNode
    ensures ParseLine(Tokens(JoinFields([exposed, TypeName(t), node]))) == Definition(exposed, NodeInfo(node, t))
  {
    PlainFieldsRoundTrip([exposed, TypeName(t), node]);
    NodeTypeOfInverse(t, TypeName(t));
  }

  /** The same with every field quoted: any text, spaces and quotes included, can be defined. */
  lemma {:induction false} QuotedDefinitionLineRoundTrip(exposed: string, t: NodeType, node: string)
    requires !IsCommentToken(exposed) && t != InvalidNode
    ensures ParseLine(Tokens(JoinFields(QuoteAll([exposed, TypeName(t), node])))) == Definition(exposed, NodeInfo(node, t))
  {
    QuotedFieldsRoundTrip([exposed, TypeName(t), node]);
    NodeTypeOfInverse(t, TypeName(t));
  }

  // ----- The registry -----

  /** `parameterList_` and `parameterMap_`. */
  datatype Registry = Registry(list: seq<string>, params: map<string, NodeInfo>)

  /** One definition: the name is always listed; `std::map::insert` keeps an existing entry. */
  function Register(r: Registry, exposed: string, info: NodeInfo): Registry {
    Registry(r.list + [exposed], if exposed in r.params then r.params else r.params[exposed := info])
  }

  /** The definition one line contributes: none, or one. */
  function LineDefinition(line: string): (ds: seq<(string, NodeInfo)>)
    ensures |ds| <= 1
  {
    var k := ParseLine(Tokens(line));
    if k.Definition? then [(k.exposed, k.info)] else []
  }

  /** The definitions of `lines`, in file order. */
  function Definitions(lines: seq<string>): (ds: seq<(string, NodeInfo)>)
    ensures |ds| <= |lines|
  {
    if lines == [] then []
    else Definitions(lines[..|lines| - 1]) + LineDefinition(lines[|lines| - 1])
  }

  function RegisterAll(r: Registry, ds: seq<(string, NodeInfo)>): Registry {
    if ds == [] then r
    else
      var last := ds[|ds| - 1];
      Register(RegisterAll(r, ds[..|ds| - 1]), last.0, last.1)
  }

  /** The registry after reading `lines` into `r`. */
  function Load(r: Registry, lines: seq<string>): Registry {
    RegisterAll(r, Definitions(lines))
  }

  /** Reading one more line: its definition, if it has one, is registered. */
  lemma LoadStep(r: Registry, lines: seq<string>, i: nat)
    requires i < |lines|
    ensures var k := ParseLine(Tokens(lines[i]));
      RegisterAll(r, Definitions(lines[..i + 1])) ==
        if k.Definition? then Register(RegisterAll(r, Definitions(lines[..i])), k.exposed, k.info)
        else RegisterAll(r, Definitions(lines[..i]))
  {
    var ls := lines[..i + 1];
    assert ls[..|ls| - 1] == lines[..i];
    var ds := Definitions(lines[..i]);
    var k := ParseLine(Tokens(lines[i]));
    if k.Definition? {
      assert Definitions(ls) == ds + [(k.exposed, k.info)];
      assert (ds + [(k.exposed, k.info)])[..|ds|] == ds;
    } else {
      assert Definitions(ls) == ds;
    }
  }

  function Names(ds: seq<(string, NodeInfo)>): (ns: seq<string>)
    ensures |ns| == |ds|
    ensures forall i :: 0 <= i < |ds| ==> ns[i] == ds[i].0
  {
    seq(|ds|, i requires 0 <= i < |ds| => ds[i].0)
  }

  lemma DefinitionsLast(a: seq<string>, b: seq<string>)
    requires b != []
    ensures Definitions(a + b) == Definitions(a + b[..|b| - 1]) + LineDefinition(b[|b| - 1])
  {
    var ab := a + b;
    assert ab[..|ab| - 1] == a + b[..|b| - 1];
    assert ab[|ab| - 1] == b[|b| - 1];
  }

  /** Reading two pieces of a file one after the other is reading the whole file. */
  lemma {:induction false} DefinitionsAppend(a: seq<string>, b: seq<string>)
    ensures Definitions(a + b) == Definitions(a) + Definitions(b)
    decreases |b|
  {
    if b == [] {
      assert a + b == a;
    } else {
      var front, last := b[..|b| - 1], LineDefinition(b[|b| - 1]);
      DefinitionsLast(a, b);
      DefinitionsAppend(a, front);
      assert Definitions(b) == Definitions(front) + last;
      assert Definitions(a) + Definitions(front) + last == Definitions(a) + (Definitions(front) + last);
    }
  }

  /**
   * A blank, comment or malformed line contributes nothing, and the lines
   * after it are read as if it were not there.
   */
  lemma SkippedLineIgnored(a: seq<string>, line: string, b: seq<string>)
    requires !ParseLine(Tokens(line)).Definition?
    ensures Definitions(a + [line] + b) == Definitions(a + b)
    ensures Load(Registry([], map[]), a + [line] + b) == Load(Registry([], map[]), a + b)
  {
    assert LineDefinition(line) == [];
    DefinitionsLast(a, [line]);
    assert a + [line][..0] == a;
    assert Definitions(a + [line]) == Definitions(a);
    DefinitionsAppend(a + [line], b);
    DefinitionsAppend(a, b);
  }

  /** Every definition is listed, in file order, duplicates included. */
  lemma {:induction false} RegisterAllList(r: Registry, ds: seq<(string, NodeInfo)>)
    ensures RegisterAll(r, ds).list == r.list + Names(ds)
  {
    if ds != [] {
      RegisterAllList(r, ds[..|ds| - 1]);
      assert Names(ds) == Names(ds[..|ds| - 1]) + [ds[|ds| - 1].0];
    }
  }

  /** The map's names are the old ones plus the defined ones, and no existing entry is overwritten. */
  lemma {:induction false} RegisterAllKeeps(r: Registry, ds: seq<(string, NodeInfo)>)
    ensures RegisterAll(r, ds).params.Keys == r.params.Keys + set i | 0 <= i < |ds| :: ds[i].0
    ensures forall k :: k in r.params ==> RegisterAll(r, ds).params[k] == r.params[k]
  {
    if ds != [] {
      var front := ds[..|ds| - 1];
      RegisterAllKeeps(r, front);
      var fs := set i | 0 <= i < |front| :: front[i].0;
      var all := set i | 0 <= i < |ds| :: ds[i].0;
      assert all == fs + {ds[|ds| - 1].0} by {
        forall k | k in all ensures k in fs + {ds[|ds| - 1].0} {
          var i :| 0 <= i < |ds| && ds[i].0 == k;
          if i < |front| { assert front[i].0 == k; }
        }
        forall k | k in fs ensures k in all {
          var i :| 0 <= i < |front| && front[i].0 == k;
          assert ds[i].0 == k;
        }
      }
    }
  }

  /** For a name not mapped before, the map holds the FIRST definition of that name. */
  lemma {:induction false} RegisterAllFirstWins(r: Registry, ds: seq<(string, NodeInfo)>, j: nat)
    requires j < |ds| && ds[j].0 !in r.params
    requires forall i :: 0 <= i < j ==> ds[i].0 != ds[j].0
    ensures ds[j].0 in RegisterAll(r, ds).params
    ensures RegisterAll(r, ds).params[ds[j].0] == ds[j].1
  {
    var front := ds[..|ds| - 1];
    if j == |ds| - 1 {
      RegisterAllKeeps(r, front);
      assert ds[j].0 !in RegisterAll(r, front).params by {
        forall i | 0 <= i < |front| ensures front[i].0 != ds[j].0 {
          assert front[i] == ds[i];
        }
      }
    } else {
      RegisterAllFirstWins(r, front, j);
    }
  }

  /** The registry after reading a file, in terms of the definitions in it. */
  lemma LoadEffect(r: Registry, lines: seq<string>)
    ensures Load(r, lines).list == r.list + Names(Definitions(lines))
    ensures forall k :: k in r.params ==> k in Load(r, lines).params && Load(r, lines).params[k] == r.params[k]
    ensures forall k :: k in Load(r, lines).params <==> k in r.params || k in Names(Definitions(lines))
  {
    var ds := Definitions(lines);
    RegisterAllList(r, ds);
    RegisterAllKeeps(r, ds);
    forall k ensures k in (set i | 0 <= i < |ds| :: ds[i].0) <==> k in Names(ds) {
      if k in Names(ds) {
        var i :| 0 <= i < |ds| && Names(ds)[i] == k;
        assert ds[i].0 == k;
      }
    }
  }
}
