/** Finding the quantization metadata of a model config and normalising it in place.

Config nodes may be shared and may form cycles.  A node is an object or a plain dict; its
metadata may be a live dict, an object that renders a fresh dict, or an object whose attribute
dict is used directly. */
module QuantConfig {
  import opened QuantNames
  import opened Wrappers

  /** A mutable quantization dict. */
  class QuantDict {
    var content: Content

    constructor (content: Content)
      ensures this.content == content
    { this.content := content; }
  }

  datatype Metadata =
    | Absent
    | Dict(dict: QuantDict)          // isinstance(value, dict)
    | Renders(rendered: Content)     // to_dict() returns a new dict
    | Attributes(attributes: QuantDict) // vars(value), live
    | Unsupported

  datatype Key = QuantizationConfig | CompressionConfig

  class ConfigNode {
    const isDict: bool
    var quantizationConfig: Metadata
    var compressionConfig: Metadata
    var textConfig: ConfigNode?
    var thinkerConfig: ConfigNode?
    var talkerConfig: ConfigNode?

    /** The metadata the search stops at: the first key that is present. */
    function FirstMetadata(): Metadata
      reads this
    { if quantizationConfig != Absent then quantizationConfig else compressionConfig }

    function FirstKey(): Key
      reads this
    { if quantizationConfig != Absent then QuantizationConfig else CompressionConfig }
  }

  // ---------- the search ----------

  /** All the search looks at: whether a node has no metadata, and its nested attributes. */
  datatype Shape = Shape(bare: bool, text: ConfigNode?, thinker: ConfigNode?, talker: ConfigNode?)

  type Graph = map<ConfigNode, Shape>

  ghost function ShapeOf(nodes: set<ConfigNode>): Graph
    reads nodes
  {
    map n | n in nodes :: Shape(n.FirstMetadata() == Absent, n.textConfig, n.thinkerConfig, n.talkerConfig)
  }

  ghost predicate Inside(node: ConfigNode?, graph: Graph) { node == null || node in graph }

  ghost predicate Closed(graph: Graph) {
    forall n | n in graph :: Inside(graph[n].text, graph) && Inside(graph[n].thinker, graph) && Inside(graph[n].talker, graph)
  }

  ghost predicate Child(graph: Graph, n: ConfigNode, m: ConfigNode)
    requires n in graph
  { m == graph[n].text || m == graph[n].thinker || m == graph[n].talker }

  /** A walk through nested attributes. */
  ghost predicate Walk(older path: seq<ConfigNode>, graph: Graph) {
    && path != [] && (forall k | 0 <= k < |path| :: path[k] in graph)
    && forall k | 0 <= k < |path| - 1 :: Child(graph, path[k], path[k + 1])
  }

  ghost predicate Reaches(root: ConfigNode, n: ConfigNode, graph: Graph) {
    exists path :: Walk(path, graph) && path[0] == root && path[|path| - 1] == n
  }

  datatype Outcome = Nowhere | At(owner: ConfigNode)

  /** Depth-first, nested attributes in order, never entering a node twice. */
  ghost function Dfs(graph: Graph, node: ConfigNode?, visited: set<ConfigNode>): (r: (Outcome, set<ConfigNode>))
    requires Closed(graph) && visited <= graph.Keys && Inside(node, graph)
    ensures visited <= r.1 <= graph.Keys
    decreases graph.Keys - visited
  {
    if node == null || node in visited then (Nowhere, visited)
    else
      var entered := visited + {node};
      if !graph[node].bare then (At(node), entered) else
        var text := Dfs(graph, graph[node].text, entered);
        if text.0.At? then text else
          var thinker := Dfs(graph, graph[node].thinker, text.1);
          if thinker.0.At? then thinker else Dfs(graph, graph[node].talker, thinker.1)
  }

  /** Without a find, everything entered is bare and has all its children entered. */
  lemma {:induction false} NowhereExplores(graph: Graph, node: ConfigNode?, visited: set<ConfigNode>)
    requires Closed(graph) && visited <= graph.Keys && Inside(node, graph)
    requires Dfs(graph, node, visited).0.Nowhere?
    ensures var after := Dfs(graph, node, visited).1;
      && (node != null ==> node in after)
      && forall n | n in after - visited :: graph[n].bare && forall m | m in graph && Child(graph, n, m) :: m in after
    decreases graph.Keys - visited
  {
    if node != null && node !in visited {
      var entered := visited + {node};
      NowhereExplores(graph, graph[node].text, entered);
      var text := Dfs(graph, graph[node].text, entered);
      NowhereExplores(graph, graph[node].thinker, text.1);
      var thinker := Dfs(graph, graph[node].thinker, text.1);
      NowhereExplores(graph, graph[node].talker, thinker.1);
    }
  }

  /** A find is a node with metadata, reached through nested attributes. */
  lemma {:induction false} FoundIsReached(graph: Graph, node: ConfigNode?, visited: set<ConfigNode>)
    returns (path: seq<ConfigNode>)
    requires Closed(graph) && visited <= graph.Keys && Inside(node, graph)
    requires Dfs(graph, node, visited).0.At?
    ensures var owner := Dfs(graph, node, visited).0.owner;
      && owner in graph && !graph[owner].bare
      && Walk(path, graph) && path[0] == node && path[|path| - 1] == owner
    decreases graph.Keys - visited
  {
    if !graph[node].bare {
      path := [node];
    } else {
      var entered := visited + {node};
      var text := Dfs(graph, graph[node].text, entered);
      var thinker := Dfs(graph, graph[node].thinker, text.1);
      var rest;
      if text.0.At? {
        rest := FoundIsReached(graph, graph[node].text, entered);
      } else if thinker.0.At? {
        rest := FoundIsReached(graph, graph[node].thinker, text.1);
      } else {
        rest := FoundIsReached(graph, graph[node].talker, thinker.1);
      }
      path := [node] + rest;
      WalkExtends(graph, node, rest);
    }
  }

  lemma {:induction false} WalkExtends(graph: Graph, node: ConfigNode, rest: seq<ConfigNode>)
    requires Walk(rest, graph) && node in graph && Child(graph, node, rest[0])
    ensures Walk([node] + rest, graph)
  {
    var path := [node] + rest;
    assert forall k | 0 < k < |path| :: path[k] == rest[k - 1];
    forall k | 0 <= k < |path| - 1 ensures Child(graph, path[k], path[k + 1]) {
      if k > 0 { assert Child(graph, rest[k - 1], rest[k]); }
    }
  }

  /** A set that contains its children contains every walk that starts in it. */
  lemma {:induction false} WalkStays(path: seq<ConfigNode>, graph: Graph, inside: set<ConfigNode>)
    requires Walk(path, graph) && path[0] in inside && inside <= graph.Keys
    requires forall n, m | n in inside && m in graph && Child(graph, n, m) :: m in inside
    ensures path[|path| - 1] in inside
  {
    if |path| > 1 {
      assert Child(graph, path[0], path[1]);
      WalkStays(path[1..], graph, inside);
    }
  }

  /** On any finite graph, cyclic or not: nothing is found exactly when no node reachable through
      the nested attributes carries metadata. */
  lemma {:induction false} NowhereIffUnreachable(graph: Graph, root: ConfigNode)
    requires Closed(graph) && root in graph
    ensures Dfs(graph, root, {}).0.Nowhere? <==> forall n | n in graph && Reaches(root, n, graph) :: graph[n].bare
  {
    if Dfs(graph, root, {}).0.Nowhere? {
      NowhereExplores(graph, root, {});
      var after := Dfs(graph, root, {}).1;
      assert after - {} == after;
      forall n | n in graph && Reaches(root, n, graph) ensures graph[n].bare {
        var path :| Walk(path, graph) && path[0] == root && path[|path| - 1] == n;
        WalkStays(path, graph, after);
      }
    } else {
      var path := FoundIsReached(graph, root, {});
      assert Reaches(root, Dfs(graph, root, {}).0.owner, graph);
    }
  }

  // ---------- which owner is found ----------

  /** A walk from a node to one with metadata that keeps out of a set of nodes. */
  ghost predicate Leads(graph: Graph, from: ConfigNode?, avoid: set<ConfigNode>, owner: ConfigNode) {
    owner in graph && !graph[owner].bare &&
    exists path :: Walk(path, graph) && path[0] == from && path[|path| - 1] == owner && forall n | n in path :: n !in avoid
  }

  ghost predicate LeadsSomewhere(graph: Graph, from: ConfigNode?, avoid: set<ConfigNode>) {
    exists owner :: owner in graph && Leads(graph, from, avoid, owner)
  }

  /** A find is led to by a walk that keeps out of what was visited before. */
  lemma {:induction false} FoundKeepsOut(graph: Graph, node: ConfigNode?, visited: set<ConfigNode>)
    requires Closed(graph) && visited <= graph.Keys && Inside(node, graph)
    requires Dfs(graph, node, visited).0.At?
    ensures Leads(graph, node, visited, Dfs(graph, node, visited).0.owner)
    decreases graph.Keys - visited
  {
    var owner := Dfs(graph, node, visited).0.owner;
    if !graph[node].bare {
      assert Walk([node], graph) && forall n | n in [node] :: n == node;
    } else {
      var entered := visited + {node};
      var text := Dfs(graph, graph[node].text, entered);
      var thinker := Dfs(graph, graph[node].thinker, text.1);
      if text.0.At? {
        FoundKeepsOut(graph, graph[node].text, entered);
        hide Dfs;
        LeadsOn(graph, node, graph[node].text, entered, visited, owner);
      } else if thinker.0.At? {
        FoundKeepsOut(graph, graph[node].thinker, text.1);
        hide Dfs;
        LeadsOn(graph, node, graph[node].thinker, text.1, visited, owner);
      } else {
        FoundKeepsOut(graph, graph[node].talker, thinker.1);
        hide Dfs;
        LeadsOn(graph, node, graph[node].talker, thinker.1, visited, owner);
      }
    }
  }

  lemma {:induction false} LeadsOn(graph: Graph, node: ConfigNode, next: ConfigNode?, avoid: set<ConfigNode>,
                                   visited: set<ConfigNode>, owner: ConfigNode)
    requires node in graph && node !in visited && visited <= avoid && Leads(graph, next, avoid, owner)
    requires next == graph[node].text || next == graph[node].thinker || next == graph[node].talker
    ensures Leads(graph, node, visited, owner)
  {
    var rest :| Walk(rest, graph) && rest[0] == next && rest[|rest| - 1] == owner && forall n | n in rest :: n !in avoid;
    var path := [node] + rest;
    assert Child(graph, node, rest[0]);
    WalkExtends(graph, node, rest);
    assert forall n | n in path :: n == node || n in rest;
    assert path[|path| - 1] == owner;
  }

  lemma {:induction false} LeadsLess(graph: Graph, from: ConfigNode?, avoid: set<ConfigNode>, less: set<ConfigNode>, owner: ConfigNode)
    requires Leads(graph, from, avoid, owner) && less <= avoid
    ensures Leads(graph, from, less, owner)
  {
    var path :| Walk(path, graph) && path[0] == from && path[|path| - 1] == owner && forall n | n in path :: n !in avoid;
    assert forall n | n in path :: n !in less;
  }

  /** What has been explored, apart from the nodes to avoid, is bare and leads nowhere new. */
  lemma {:induction false} ExploredLeadsNowhere(graph: Graph, from: ConfigNode?, avoid: set<ConfigNode>, explored: set<ConfigNode>,
                                                path: seq<ConfigNode>)
    requires avoid <= explored <= graph.Keys && (from == null || from in explored)
    requires forall n | n in explored - avoid :: graph[n].bare && forall m | m in graph && Child(graph, n, m) :: m in explored
    requires Walk(path, graph) && path[0] == from && forall n | n in path :: n !in avoid
    ensures graph[path[|path| - 1]].bare
    decreases |path|
  {
    assert path[0] in path;
    assert path[0] in explored - avoid;
    if |path| > 1 {
      var rest := path[1..];
      assert Child(graph, path[0], path[1]);
      assert forall n | n in rest :: n in path;
      forall k | 0 <= k < |rest| - 1 ensures Child(graph, rest[k], rest[k + 1]) {
        assert rest[k] == path[k + 1] && Child(graph, path[k + 1], path[k + 2]);
      }
      ExploredLeadsNowhere(graph, rest[0], avoid, explored, rest);
    }
  }

  /** The explored part after a search without a find, relative to the nodes avoided from the start. */
  ghost predicate Explored(graph: Graph, avoid: set<ConfigNode>, explored: set<ConfigNode>) {
    && avoid <= explored <= graph.Keys
    && forall n | n in explored - avoid :: graph[n].bare && forall m | m in graph && Child(graph, n, m) :: m in explored
  }

  lemma {:induction false} ExploresMore(graph: Graph, node: ConfigNode?, avoid: set<ConfigNode>, before: set<ConfigNode>)
    requires Closed(graph) && Inside(node, graph) && Explored(graph, avoid, before)
    requires Dfs(graph, node, before).0.Nowhere?
    ensures Explored(graph, avoid, Dfs(graph, node, before).1) && !LeadsSomewhere(graph, node, avoid)
  {
    var after := Dfs(graph, node, before).1;
    NowhereExplores(graph, node, before);
    hide Dfs;
    forall n | n in after - avoid ensures graph[n].bare && forall m | m in graph && Child(graph, n, m) :: m in after {
      if n in before { assert n in before - avoid; } else { assert n in after - before; }
    }
    forall owner | owner in graph && Leads(graph, node, avoid, owner) ensures false {
      var path :| Walk(path, graph) && path[0] == node && path[|path| - 1] == owner && forall n | n in path :: n !in avoid;
      ExploredLeadsNowhere(graph, node, avoid, after, path);
    }
  }

  lemma {:induction false} FoundFrom(graph: Graph, node: ConfigNode?, avoid: set<ConfigNode>, before: set<ConfigNode>)
    requires Closed(graph) && Inside(node, graph) && before <= graph.Keys && avoid <= before
    requires Dfs(graph, node, before).0.At?
    ensures Leads(graph, node, avoid, Dfs(graph, node, before).0.owner) && LeadsSomewhere(graph, node, avoid)
  {
    FoundKeepsOut(graph, node, before);
    hide Dfs;
    LeadsLess(graph, node, before, avoid, Dfs(graph, node, before).0.owner);
  }

  /** Which owner is found: a node with metadata is its own; a bare one takes the first of its nested
      attributes, text before thinker before talker, from which a walk that does not come back to it
      leads to metadata, and an owner such a walk leads to. */
  lemma {:induction false} FirstAttributeWins(graph: Graph, node: ConfigNode, visited: set<ConfigNode>)
    requires Closed(graph) && node in graph && visited <= graph.Keys && node !in visited
    ensures var found, avoid, attributes := Dfs(graph, node, visited).0, visited + {node}, graph[node];
      if !attributes.bare then found == At(node)
      else if LeadsSomewhere(graph, attributes.text, avoid) then found.At? && Leads(graph, attributes.text, avoid, found.owner)
      else if LeadsSomewhere(graph, attributes.thinker, avoid) then found.At? && Leads(graph, attributes.thinker, avoid, found.owner)
      else if LeadsSomewhere(graph, attributes.talker, avoid) then found.At? && Leads(graph, attributes.talker, avoid, found.owner)
      else found == Nowhere
  {
    if graph[node].bare {
      var avoid, a := visited + {node}, graph[node];
      assert Explored(graph, avoid, avoid);
      var text := Dfs(graph, a.text, avoid);
      var thinker := Dfs(graph, a.thinker, text.1);
      var talker := Dfs(graph, a.talker, thinker.1);
      assert Dfs(graph, node, visited) == if text.0.At? then text else if thinker.0.At? then thinker else talker;
      hide Dfs, Leads, LeadsSomewhere, Explored;
      if text.0.At? {
        FoundFrom(graph, a.text, avoid, avoid);
      } else {
        ExploresMore(graph, a.text, avoid, avoid);
        if thinker.0.At? {
          FoundFrom(graph, a.thinker, avoid, text.1);
        } else {
          ExploresMore(graph, a.thinker, avoid, text.1);
          if talker.0.At? {
            FoundFrom(graph, a.talker, avoid, thinker.1);
          } else {
            ExploresMore(graph, a.talker, avoid, thinker.1);
          }
        }
      }
    }
  }

  /** What the search looks at, in the nodes' own fields. */
  lemma {:induction false} ShapeIsFields(nodes: set<ConfigNode>, n: ConfigNode)
    requires n in nodes
    ensures n in ShapeOf(nodes)
    ensures ShapeOf(nodes)[n].bare <==> n.quantizationConfig == Absent && n.compressionConfig == Absent
    ensures ShapeOf(nodes)[n].text == n.textConfig && ShapeOf(nodes)[n].thinker == n.thinkerConfig
    ensures ShapeOf(nodes)[n].talker == n.talkerConfig
  {}

  // ---------- reading and writing the metadata ----------

  /** The content a piece of metadata stands for. */
  ghost function Meaning(m: Metadata): Option<Content>
    reads if m.Dict? then {m.dict} else if m.Attributes? then {m.attributes} else {}
  {
    match m
    case Dict(d) => Some(d.content)
    case Renders(c) => Some(c)
    case Attributes(d) => Some(d.content)
    case Absent | Unsupported => None
  }

  method ToMutableDict(raw: Metadata) returns (result: Option<QuantDict>)
    requires raw != Absent
    ensures result.None? <==> raw.Unsupported?
    ensures result.Some? ==> Meaning(raw) == Some(result.value.content)
    ensures raw.Dict? ==> result == Some(raw.dict)
    ensures raw.Attributes? ==> result == Some(raw.attributes)
    ensures raw.Renders? ==> fresh(result.value)
  {
    match raw
    case Dict(d) => result := Some(d);
    case Renders(c) =>
      var d := new QuantDict(c);
      result := Some(d);
    case Attributes(d) => result := Some(d);
    case Unsupported => result := None;
  }

  method Search(node: ConfigNode?, visited: set<ConfigNode>, ghost nodes: set<ConfigNode>)
    returns (found: Outcome, after: set<ConfigNode>)
    requires Closed(ShapeOf(nodes)) && visited <= nodes && (node == null || node in nodes)
    ensures (found, after) == Dfs(ShapeOf(nodes), node, visited)
    decreases nodes - visited
  {
    if node == null || node in visited {
      return Nowhere, visited;
    }
    after := visited + {node};
    if node.quantizationConfig != Absent || node.compressionConfig != Absent {
      return At(node), after;
    }
    ghost var graph := ShapeOf(nodes);
    assert graph[node] == Shape(true, node.textConfig, node.thinkerConfig, node.talkerConfig);
    assert Inside(graph[node].text, graph) && Inside(graph[node].thinker, graph) && Inside(graph[node].talker, graph);
    found, after := Search(node.textConfig, after, nodes);
    if found.At? {
      return;
    }
    found, after := Search(node.thinkerConfig, after, nodes);
    if found.At? {
      return;
    }
    found, after := Search(node.talkerConfig, after, nodes);
  }

  datatype Resolution = NotFound | TypeError | Found(dict: QuantDict)

  /** A finite set of nodes around the root that nested attributes do not leave. */
  ghost predicate InGraph(nodes: set<ConfigNode>, root: ConfigNode?)
    reads nodes
  { Closed(ShapeOf(nodes)) && (root == null || root in nodes) }

  ghost function FirstOwner(nodes: set<ConfigNode>, root: ConfigNode?): Outcome
    requires InGraph(nodes, root)
    reads nodes
  { Dfs(ShapeOf(nodes), root, {}).0 }

  method ResolveQuantConfig(config: ConfigNode?, ghost nodes: set<ConfigNode>) returns (result: Resolution)
    requires InGraph(nodes, config)
    ensures var found := FirstOwner(nodes, config);
      && (result.NotFound? <==> found.Nowhere?)
      && (found.At? && found.owner.FirstMetadata() == Unsupported <==> result.TypeError?)
      && (result.Found? ==> Meaning(found.owner.FirstMetadata()) == Some(result.dict.content))
      && (result.Found? ==>
            var o := found.owner;
            match if o.quantizationConfig != Absent then o.quantizationConfig else o.compressionConfig
            case Dict(d) => result.dict == d
            case Renders(c) => fresh(result.dict) && result.dict.content == c
            case Attributes(d) => result.dict == d
            case _ => false)
  {
    var found, _ := Search(config, {}, nodes);
    if found.Nowhere? {
      return NotFound;
    }
    OwnerHasMetadata(nodes, config);
    var dict := ToMutableDict(found.owner.FirstMetadata());
    result := if dict.None? then TypeError else Found(dict.value);
  }

  lemma {:induction false} OwnerHasMetadata(nodes: set<ConfigNode>, root: ConfigNode?)
    requires InGraph(nodes, root) && FirstOwner(nodes, root).At?
    ensures FirstOwner(nodes, root).owner in nodes
    ensures FirstOwner(nodes, root).owner.FirstMetadata() != Absent
  {
    var path := FoundIsReached(ShapeOf(nodes), root, {});
  }

  /** The owner both searches stop at, in the root's own fields. */
  lemma {:induction false} FirstOwnerInOrder(nodes: set<ConfigNode>, root: ConfigNode)
    requires InGraph(nodes, root)
    ensures var found, graph := FirstOwner(nodes, root), ShapeOf(nodes);
      if root.quantizationConfig != Absent || root.compressionConfig != Absent then found == At(root)
      else if LeadsSomewhere(graph, root.textConfig, {root}) then found.At? && Leads(graph, root.textConfig, {root}, found.owner)
      else if LeadsSomewhere(graph, root.thinkerConfig, {root}) then found.At? && Leads(graph, root.thinkerConfig, {root}, found.owner)
      else if LeadsSomewhere(graph, root.talkerConfig, {root}) then found.At? && Leads(graph, root.talkerConfig, {root}, found.owner)
      else found == Nowhere
  {
    hide Dfs, Leads, LeadsSomewhere;
    ShapeIsFields(nodes, root);
    FirstAttributeWins(ShapeOf(nodes), root, {});
    assert {} + {root} == {root};
  }

  // ---------- normalisation in place ----------

  /** The checkpoint prefix of the stage architecture, empty when there is none. */
  function StagePrefix(architectures: seq<string>): string {
    if architectures == [] then ""
    else if architectures[0] == "Qwen3OmniThinkerForCausalLM" then "thinker."
    else if architectures[0] == "Qwen3ASRForConditionalGeneration" then "thinker."
    else if architectures[0] == "Qwen3OmniTalker" then "talker."
    else ""
  }

  /** Only the first architecture counts. */
  lemma {:induction false} PrefixOfFirstArchitecture(architecture: string, others: seq<string>)
    ensures StagePrefix([]) == "" && StagePrefix([architecture] + others) == StagePrefix([architecture])
    ensures StagePrefix([architecture]) == "thinker." <==>
      architecture in {"Qwen3OmniThinkerForCausalLM", "Qwen3ASRForConditionalGeneration"}
    ensures StagePrefix([architecture]) == "talker." <==> architecture == "Qwen3OmniTalker"
    ensures StagePrefix([architecture]) in {"", "thinker.", "talker."}
  {
    assert "thinker."[1] == 'h' && "talker."[1] == 'a';
    assert "Qwen3OmniThinkerForCausalLM"[5] == 'O' && "Qwen3ASRForConditionalGeneration"[5] == 'A';
    assert |"Qwen3OmniTalker"| == 15 && |"Qwen3OmniThinkerForCausalLM"| == 27;
  }

  ghost predicate BlocksChange(c: Content, prefix: string) { StripAll(Names(c.blocks), prefix) != Names(c.blocks) }

  ghost predicate Changes(c: Content, prefix: string) { BlocksChange(c, prefix) || KeyChanges(c.extra, prefix) }

  /** Without a prefix there is nothing to normalise. */
  lemma {:induction false} NoPrefixNoChange(c: Content)
    ensures Normal(c, "") == c && !Changes(c, "")
  {
    var names := Names(c.blocks);
    assert forall k | 0 <= k < |names| :: StripBlock(names[k], "") == names[k];
    assert StripAll(names, "") == names;
    assert Escaped("") == "" && forall k | 0 <= k < |c.extra| :: StripKey(c.extra[k].key, "") == c.extra[k].key;
  }

  /** There is something to change exactly when the normalised content differs. */
  lemma {:induction false} ChangesIff(c: Content, prefix: string)
    ensures Changes(c, prefix) <==> Normal(c, prefix) != c
  {
    if prefix == "" {
      NoPrefixNoChange(c);
    } else {
      UnchangedIff(c.blocks, prefix);
      SameKeysIff(c.extra, prefix);
      StripAllSame(Names(c.blocks), prefix);
      hide NormalBlocks, NormalExtra, Names, StripAll, KeyChanges;
    }
  }

  method NormalizeBlocks(dict: QuantDict, prefix: string) returns (changed: bool)
    modifies dict
    ensures changed <==> BlocksChange(old(dict.content), prefix)
    ensures dict.content == old(dict.content).(blocks := NormalBlocks(old(dict.content.blocks), prefix))
  {
    var list := Names(dict.content.blocks);
    var normalized := StripAll(list, prefix);
    if normalized == list {
      return false;
    }
    dict.content := dict.content.(blocks :=
      if dict.content.blocks.Listed? then Listed(normalized) else Joined(Join(normalized)));
    changed := true;
  }

  lemma {:induction false} OneMoreKey(extra: seq<Entry>, k: nat, prefix: string)
    requires k < |extra|
    ensures Renamed(extra[..k + 1], prefix) ==
            Put(Renamed(extra[..k], prefix), StripKey(extra[k].key, prefix), extra[k].value)
    ensures KeyChanges(extra[..k + 1], prefix) <==>
            KeyChanges(extra[..k], prefix) || StripKey(extra[k].key, prefix) != extra[k].key
  {
    var more, front := extra[..k + 1], extra[..k];
    assert more[..k] == front;
    hide StripKey, Put;
    forall j | 0 <= j < k && StripKey(front[j].key, prefix) != front[j].key ensures KeyChanges(more, prefix) {
      assert more[j] == front[j];
    }
    assert StripKey(more[k].key, prefix) != more[k].key ==> KeyChanges(more, prefix);
    forall j | 0 <= j <= k && StripKey(more[j].key, prefix) != more[j].key
      ensures KeyChanges(front, prefix) || j == k
    {
      if j < k { assert front[j] == more[j]; }
    }
  }

  method NormalizeExtraKeys(dict: QuantDict, prefix: string) returns (changed: bool)
    modifies dict
    ensures changed <==> KeyChanges(old(dict.content.extra), prefix)
    ensures dict.content == old(dict.content).(extra :=
      if changed then Renamed(old(dict.content.extra), prefix) else old(dict.content.extra))
  {
    var extra := dict.content.extra;
    assert Renamed([], prefix) == [] && !KeyChanges([], prefix);
    hide Renamed, KeyChanges, StripKey, Put;
    var normalized: seq<Entry> := [];
    changed := false;
    for k := 0 to |extra|
      invariant dict.content == old(dict.content)
      invariant normalized == Renamed(extra[..k], prefix)
      invariant changed <==> KeyChanges(extra[..k], prefix)
    {
      OneMoreKey(extra, k, prefix);
      var key := StripKey(extra[k].key, prefix);
      changed := changed || key != extra[k].key;
      normalized := Put(normalized, key, extra[k].value);
    }
    assert extra[..|extra|] == extra;
    if changed {
      dict.content := dict.content.(extra := normalized);
    }
  }

  /** Both normalisers in turn. */
  method NormalizeDict(dict: QuantDict, prefix: string) returns (changed: bool)
    modifies dict
    ensures changed <==> Changes(old(dict.content), prefix)
    ensures dict.content == Normal(old(dict.content), prefix)
    ensures !changed ==> dict.content == old(dict.content)
  {
    var blocksChanged := NormalizeBlocks(dict, prefix);
    var extraChanged := NormalizeExtraKeys(dict, prefix);
    changed := blocksChanged || extraChanged;
  }

  /** setattr(owner, metadata_key, quant_config) */
  method WriteBack(owner: ConfigNode, dict: QuantDict)
    requires owner.FirstMetadata() != Absent
    modifies owner
    ensures owner.FirstMetadata() == Dict(dict) && owner.FirstKey() == old(owner.FirstKey())
    ensures owner.textConfig == old(owner.textConfig) && owner.thinkerConfig == old(owner.thinkerConfig)
    ensures owner.talkerConfig == old(owner.talkerConfig)
  {
    if owner.quantizationConfig != Absent {
      owner.quantizationConfig := Dict(dict);
    } else {
      owner.compressionConfig := Dict(dict);
    }
  }

  datatype Normalization = Done | MetadataTypeError | ReadOnlyOwner

  /** True when the normalised content must be stored through setattr on a plain dict. */
  ghost predicate CannotWriteBack(owner: ConfigNode, prefix: string)
    reads owner, if owner.FirstMetadata().Attributes? then {owner.FirstMetadata().attributes} else {}
  {
    var raw := owner.FirstMetadata();
    owner.isDict && (raw.Renders? || raw.Attributes?) && Changes(Meaning(raw).value, prefix)
  }

  ghost predicate Holds(nodes: set<ConfigNode>, dicts: set<QuantDict>)
    reads nodes
  {
    forall n | n in nodes ::
      && (n.FirstMetadata().Dict? ==> n.FirstMetadata().dict in dicts)
      && (n.FirstMetadata().Attributes? ==> n.FirstMetadata().attributes in dicts)
  }

  /** The metadata of the node the search stopped at.  When the write-back fails, a live attribute
      dict has been normalised already; rendered content is lost. */
  method NormalizeOwner(owner: ConfigNode, prefix: string, ghost dicts: set<QuantDict>) returns (outcome: Normalization)
    requires owner.FirstMetadata() != Absent && Holds({owner}, dicts)
    modifies owner, dicts
    ensures owner.FirstMetadata() != Absent && owner.FirstKey() == old(owner.FirstKey())
    ensures owner.textConfig == old(owner.textConfig) && owner.thinkerConfig == old(owner.thinkerConfig)
    ensures owner.talkerConfig == old(owner.talkerConfig)
    ensures outcome == MetadataTypeError <==> old(owner.FirstMetadata()) == Unsupported
    ensures outcome == ReadOnlyOwner <==> prefix != "" && old(CannotWriteBack(owner, prefix))
    ensures outcome == ReadOnlyOwner <==>
      owner.isDict && (old(owner.FirstMetadata()).Renders? || old(owner.FirstMetadata()).Attributes?) &&
      old(Normal(Meaning(owner.FirstMetadata()).value, prefix) != Meaning(owner.FirstMetadata()).value)
    ensures forall d | d in dicts && d.content != old(d.content) ::
      old(owner.FirstMetadata()) == Dict(d) || old(owner.FirstMetadata()) == Attributes(d)
    ensures outcome == Done || (outcome == ReadOnlyOwner && old(owner.FirstMetadata()).Attributes?) ==>
      old(Meaning(owner.FirstMetadata())).Some? &&
      Meaning(owner.FirstMetadata()) == Some(Normal(old(Meaning(owner.FirstMetadata())).value, prefix))
    ensures outcome == ReadOnlyOwner ==> owner.FirstMetadata() == old(owner.FirstMetadata())
  {
    hide Normal, Changes;
    assert owner in {owner};
    var raw := owner.FirstMetadata();
    var loaded := ToMutableDict(raw);
    if loaded.None? {
      return MetadataTypeError;
    }
    var quantConfig := loaded.value;
    ChangesIff(quantConfig.content, prefix);
    if prefix == "" {
      NoPrefixNoChange(quantConfig.content);
      return Done;
    }
    var changed := NormalizeDict(quantConfig, prefix);
    if !changed {
      return Done;
    }
    if !raw.Dict? {
      if owner.isDict {
        return ReadOnlyOwner;
      }
      WriteBack(owner, quantConfig);
    }
    outcome := Done;
  }

  /** After normalisation the search still stops at the same node and reads the normalised
      content; only that node's metadata and its dict may have been written. */
  method NormalizeQuantConfig(hfConfig: ConfigNode?, architectures: seq<string>,
                              ghost nodes: set<ConfigNode>, ghost dicts: set<QuantDict>)
    returns (outcome: Normalization)
    requires InGraph(nodes, hfConfig) && Holds(nodes, dicts)
    modifies nodes, dicts
    ensures ShapeOf(nodes) == old(ShapeOf(nodes)) && FirstOwner(nodes, hfConfig) == old(FirstOwner(nodes, hfConfig))
    ensures old(FirstOwner(nodes, hfConfig)).Nowhere? ==> outcome == Done && unchanged(nodes) && unchanged(dicts)
    ensures old(FirstOwner(nodes, hfConfig)).At? ==>
      var owner, prefix := old(FirstOwner(nodes, hfConfig)).owner, StagePrefix(architectures);
      && (outcome == MetadataTypeError <==> old(owner.FirstMetadata()) == Unsupported)
      && (outcome == ReadOnlyOwner <==> prefix != "" && old(CannotWriteBack(owner, prefix)))
      && (forall n | n in nodes && n != owner :: unchanged(n))
      && (forall d | d in dicts && d.content != old(d.content) ::
            old(owner.FirstMetadata()) == Dict(d) || old(owner.FirstMetadata()) == Attributes(d))
      && (outcome == Done ==> owner.FirstKey() == old(owner.FirstKey()))
      && (outcome == Done || (outcome == ReadOnlyOwner && old(owner.FirstMetadata()).Attributes?) ==>
            old(Meaning(owner.FirstMetadata())).Some? &&
            Meaning(owner.FirstMetadata()) == Some(Normal(old(Meaning(owner.FirstMetadata())).value, prefix)))
      && (outcome == ReadOnlyOwner ==> owner.FirstMetadata() == old(owner.FirstMetadata()))
  {
    hide StagePrefix, Normal, Changes, Dfs, Closed;
    var found, _ := Search(hfConfig, {}, nodes);
    if found.Nowhere? {
      return Done;
    }
    OwnerHasMetadata(nodes, hfConfig);
    ghost var shape := ShapeOf(nodes);
    var owner := found.owner;
    outcome := NormalizeOwner(owner, StagePrefix(architectures), dicts);
    assert ShapeOf(nodes) == shape;
  }

}
