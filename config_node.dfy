/**
 * KSP's ConfigNode as a value: a name, an ordered list of key/text entries (a key may
 * repeat) and an ordered list of child nodes. The operations are the ones the mod
 * calls: AddValue, GetValue, GetValues, HasValue, SetValue, AddNode, GetNode,
 * HasNode and SetNode.
 */
module ConfigNodes {
  import opened Wrappers

  datatype Entry = Entry(key: string, text: string)

  datatype Node = Node(name: string, values: seq<Entry>, nodes: seq<Node>)

  /** `new ConfigNode(name)`. */
  function NewNode(name: string): Node
  {
    Node(name, [], [])
  }

  /** The texts stored under `key`, in the order they were added. */
  function ValuesOf(values: seq<Entry>, key: string): (r: seq<string>)
    ensures |r| <= |values|
  {
    if values == [] then []
    else (if values[0].key == key then [values[0].text] else []) + ValuesOf(values[1..], key)
  }

  lemma {:induction false} ValuesOfAppend(values: seq<Entry>, e: Entry, key: string)
    ensures ValuesOf(values + [e], key) == ValuesOf(values, key) + (if e.key == key then [e.text] else [])
  {
    if values != [] {
      assert (values + [e])[1..] == values[1..] + [e];
      ValuesOfAppend(values[1..], e, key);
    } else {
      assert values + [e] == [e];
    }
  }

  function GetValues(n: Node, key: string): seq<string>
  {
    ValuesOf(n.values, key)
  }

  predicate HasValue(n: Node, key: string)
  {
    GetValues(n, key) != []
  }

  /** The first text stored under `key`, or None where KSP returns null. */
  function GetValue(n: Node, key: string): (r: Option<string>)
    ensures r.Some? <==> HasValue(n, key)
  {
    var texts := GetValues(n, key);
    if texts == [] then None else Some(texts[0])
  }

  /** AddValue appends one entry: it is the last text under its key and no other key changes. */
  function AddValue(n: Node, key: string, text: string): (r: Node)
    ensures r.name == n.name && r.nodes == n.nodes
    ensures GetValues(r, key) == GetValues(n, key) + [text]
    ensures forall k :: k != key ==> GetValues(r, k) == GetValues(n, k)
  {
    var e := Entry(key, text);
    ValuesOfAppend(n.values, e, key);
    forall k | k != key
      ensures ValuesOf(n.values + [e], k) == ValuesOf(n.values, k)
    {
      ValuesOfAppend(n.values, e, k);
    }
    n.(values := n.values + [e])
  }

  /** AddValue of each entry in turn. */
  function AddValues(n: Node, entries: seq<Entry>): (r: Node)
    ensures r == n.(values := n.values + entries)
    decreases |entries|
  {
    if entries == [] then
      assert n.values + entries == n.values;
      n
    else
      assert n.values + [entries[0]] + entries[1..] == n.values + entries;
      AddValues(AddValue(n, entries[0].key, entries[0].text), entries[1..])
  }

  /** No key occurs twice. */
  predicate UniqueKeys(entries: seq<Entry>)
  {
    forall i, j :: 0 <= i < j < |entries| ==> entries[i].key != entries[j].key
  }

  /** Among entries with unique keys, each key holds exactly its own text. */
  lemma {:induction false} LookupUnique(entries: seq<Entry>, i: int)
    requires UniqueKeys(entries) && 0 <= i < |entries|
    ensures ValuesOf(entries, entries[i].key) == [entries[i].text]
  {
    var rest := entries[1..];
    if i == 0 {
      assert forall j :: 0 <= j < |rest| ==> rest[j].key != entries[0].key;
      NoSuchKey(rest, entries[0].key);
    } else {
      assert UniqueKeys(rest);
      LookupUnique(rest, i - 1);
    }
  }

  /** In a node whose keys are unique, the entry at any position is what its key reads. */
  lemma ReadBackAt(n: Node, i: int, key: string, text: string)
    requires UniqueKeys(n.values) && 0 <= i < |n.values| && n.values[i] == Entry(key, text)
    ensures GetValue(n, key) == Some(text)
  {
    LookupUnique(n.values, i);
  }

  /** Each key paired with the text at its position. */
  function Zip(keys: seq<string>, texts: seq<string>): (r: seq<Entry>)
    requires |keys| == |texts|
    ensures |r| == |keys|
    ensures forall i :: 0 <= i < |r| ==> r[i].key == keys[i] && r[i].text == texts[i]
  {
    seq(|keys|, i requires 0 <= i < |keys| => Entry(keys[i], texts[i]))
  }

  /**
   * A node holding distinct keys paired with their texts lists exactly those keys, and
   * each key reads back as its own text.
   */
  lemma ZipReadsBack(n: Node, keys: seq<string>, texts: seq<string>, i: int)
    requires |keys| == |texts| && n.values == Zip(keys, texts)
    requires forall a, b :: 0 <= a < b < |keys| ==> keys[a] != keys[b]
    requires 0 <= i < |keys|
    ensures Keys(n) == keys
    ensures GetValue(n, keys[i]) == Some(texts[i])
  {
    assert UniqueKeys(n.values);
    ReadBackAt(n, i, keys[i], texts[i]);
  }

  lemma {:induction false} NoSuchKey(entries: seq<Entry>, key: string)
    requires forall j :: 0 <= j < |entries| ==> entries[j].key != key
    ensures ValuesOf(entries, key) == []
  {
    if entries != [] {
      NoSuchKey(entries[1..], key);
    }
  }

  function ReplaceFirstValue(values: seq<Entry>, key: string, text: string): (r: seq<Entry>)
    ensures ValuesOf(values, key) != [] ==> ValuesOf(r, key) == [text] + ValuesOf(values, key)[1..]
    ensures ValuesOf(values, key) == [] ==> r == values
    ensures forall k :: k != key ==> ValuesOf(r, k) == ValuesOf(values, k)
  {
    if values == [] then []
    else if values[0].key == key then [Entry(key, text)] + values[1..]
    else
      var r := [values[0]] + ReplaceFirstValue(values[1..], key, text);
      assert r[1..] == ReplaceFirstValue(values[1..], key, text);
      r
  }

  /**
   * SetValue: the first text under `key` becomes `text`; a key that is not there yet
   * is added, as the persistent-field save that precedes a module's OnSave has written
   * every key already.
   */
  function SetValue(n: Node, key: string, text: string): (r: Node)
    ensures r.name == n.name && r.nodes == n.nodes
    ensures GetValue(r, key) == Some(text)
    ensures |GetValues(r, key)| == if HasValue(n, key) then |GetValues(n, key)| else 1
    ensures forall k :: k != key ==> GetValues(r, k) == GetValues(n, k)
  {
    if HasValue(n, key) then n.(values := ReplaceFirstValue(n.values, key, text))
    else AddValue(n, key, text)
  }

  /** Consecutive SetValue calls, one per entry, in order. */
  function SetValues(n: Node, entries: seq<Entry>): (r: Node)
    ensures r.name == n.name && r.nodes == n.nodes
    decreases |entries|
  {
    if entries == [] then n
    else SetValues(SetValue(n, entries[0].key, entries[0].text), entries[1..])
  }

  /** Keys that none of the entries sets keep all their texts. */
  lemma {:induction false} SetValuesKeepsOther(n: Node, entries: seq<Entry>, k: string)
    requires forall j :: 0 <= j < |entries| ==> entries[j].key != k
    ensures GetValues(SetValues(n, entries), k) == GetValues(n, k)
    decreases |entries|
  {
    if entries != [] {
      SetValuesKeepsOther(SetValue(n, entries[0].key, entries[0].text), entries[1..], k);
    }
  }

  /** After setting entries with unique keys, each key's first text is its entry's text. */
  lemma {:induction false} SetValuesReadBack(n: Node, entries: seq<Entry>, i: int)
    requires UniqueKeys(entries) && 0 <= i < |entries|
    ensures GetValue(SetValues(n, entries), entries[i].key) == Some(entries[i].text)
    decreases |entries|
  {
    var first := SetValue(n, entries[0].key, entries[0].text);
    var rest := entries[1..];
    if i == 0 {
      assert forall j :: 0 <= j < |rest| ==> rest[j].key != entries[0].key;
      SetValuesKeepsOther(first, rest, entries[0].key);
    } else {
      assert UniqueKeys(rest);
      SetValuesReadBack(first, rest, i - 1);
    }
  }

  /** The children named `name`, in order. */
  function NodesNamed(nodes: seq<Node>, name: string): (r: seq<Node>)
    ensures |r| <= |nodes|
    ensures forall i :: 0 <= i < |r| ==> r[i].name == name
  {
    if nodes == [] then []
    else (if nodes[0].name == name then [nodes[0]] else []) + NodesNamed(nodes[1..], name)
  }

  lemma {:induction false} NodesNamedAppend(nodes: seq<Node>, c: Node, name: string)
    ensures NodesNamed(nodes + [c], name) == NodesNamed(nodes, name) + (if c.name == name then [c] else [])
  {
    if nodes != [] {
      assert (nodes + [c])[1..] == nodes[1..] + [c];
      NodesNamedAppend(nodes[1..], c, name);
    } else {
      assert nodes + [c] == [c];
    }
  }

  /** The keys of the node's values, in order. */
  function Keys(n: Node): seq<string>
  {
    seq(|n.values|, i requires 0 <= i < |n.values| => n.values[i].key)
  }

  /** No child is named `name` exactly when the filtered list is empty. */
  lemma {:induction false} NodesNamedEmpty(nodes: seq<Node>, name: string)
    ensures NodesNamed(nodes, name) == [] <==> forall k :: 0 <= k < |nodes| ==> nodes[k].name != name
  {
    if nodes != [] {
      NodesNamedEmpty(nodes[1..], name);
      if nodes[0].name != name {
        forall k | 1 <= k < |nodes|
          ensures nodes[k] == nodes[1..][k - 1]
        {
        }
      }
    }
  }

  predicate HasNode(n: Node, name: string): (r: bool)
    ensures r <==> exists k :: 0 <= k < |n.nodes| && n.nodes[k].name == name
  {
    NodesNamedEmpty(n.nodes, name);
    NodesNamed(n.nodes, name) != []
  }

  /** The first child named `name`, or None where KSP returns null. */
  function GetNode(n: Node, name: string): (r: Option<Node>)
    ensures r.Some? <==> HasNode(n, name)
    ensures r.Some? ==> r.value.name == name
  {
    var found := NodesNamed(n.nodes, name);
    if found == [] then None else Some(found[0])
  }

  /** AddNode appends a child: it is the last one under its name and no other name changes. */
  function AddNode(n: Node, child: Node): (r: Node)
    ensures r.name == n.name && r.values == n.values
    ensures NodesNamed(r.nodes, child.name) == NodesNamed(n.nodes, child.name) + [child]
    ensures forall k :: k != child.name ==> NodesNamed(r.nodes, k) == NodesNamed(n.nodes, k)
  {
    NodesNamedAppend(n.nodes, child, child.name);
    forall k | k != child.name
      ensures NodesNamed(n.nodes + [child], k) == NodesNamed(n.nodes, k)
    {
      NodesNamedAppend(n.nodes, child, k);
    }
    n.(nodes := n.nodes + [child])
  }

  function ReplaceFirstNode(nodes: seq<Node>, name: string, child: Node): (r: seq<Node>)
    requires child.name == name
    ensures NodesNamed(nodes, name) != [] ==> NodesNamed(r, name) == [child] + NodesNamed(nodes, name)[1..]
    ensures NodesNamed(nodes, name) == [] ==> r == nodes
    ensures forall k :: k != name ==> NodesNamed(r, k) == NodesNamed(nodes, k)
  {
    if nodes == [] then []
    else if nodes[0].name == name then [child] + nodes[1..]
    else
      var r := [nodes[0]] + ReplaceFirstNode(nodes[1..], name, child);
      assert r[1..] == ReplaceFirstNode(nodes[1..], name, child);
      r
  }

  /** SetNode: the first child named `name` takes the contents of `child`; without one, nothing changes. */
  function SetNode(n: Node, name: string, child: Node): (r: Node)
    ensures r.name == n.name && r.values == n.values
    ensures HasNode(n, name) ==> GetNode(r, name) == Some(child.(name := name))
    ensures |NodesNamed(r.nodes, name)| == |NodesNamed(n.nodes, name)|
    ensures forall k :: k != name ==> NodesNamed(r.nodes, k) == NodesNamed(n.nodes, k)
  {
    n.(nodes := ReplaceFirstNode(n.nodes, name, child.(name := name)))
  }
}
