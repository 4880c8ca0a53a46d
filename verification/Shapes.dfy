/** Conditions on every node and table of a tree, and the tree that comes back from its own print. */
module Shapes {
  import opened Bytes
  import opened Decimal
  import opened Protocol
  import opened MapOrder

  predicate All(node: Node, p: Node -> bool, q: Table -> bool) {
    p(node) && (node.attribute.Some? ==> AllTable(node.attribute.value, p, q)) && AllData(node.data, p, q)
  }

  predicate AllData(data: Data, p: Node -> bool, q: Table -> bool) {
    match data
    case Aggregate(_, elements) => AllNodes(elements, p, q)
    case Map(table) => AllTable(table, p, q)
    case Attribute(table) => AllTable(table, p, q)
    case _ => true
  }

  predicate AllNodes(nodes: seq<Node>, p: Node -> bool, q: Table -> bool) {
    nodes == [] || (All(nodes[0], p, q) && AllNodes(nodes[1..], p, q))
  }

  predicate AllTable(table: Table, p: Node -> bool, q: Table -> bool) {
    q(table) && AllPairs(table.pairs, p, q) && AllFields(table.fields, p, q)
  }

  predicate AllPairs(pairs: seq<Pair>, p: Node -> bool, q: Table -> bool) {
    pairs == [] || (AllPair(pairs[0], p, q) && AllPairs(pairs[1..], p, q))
  }

  predicate AllPair(pair: Pair, p: Node -> bool, q: Table -> bool) {
    All(pair.key, p, q) && All(pair.value, p, q)
  }

  predicate AllFields(fields: seq<Field>, p: Node -> bool, q: Table -> bool) {
    fields == [] || (AllField(fields[0], p, q) && AllFields(fields[1..], p, q))
  }

  predicate AllField(field: Field, p: Node -> bool, q: Table -> bool) {
    All(field.content, p, q)
  }

  // ----- normal: what the parser can produce

  predicate HasCrlf(s: seq<byte>) {
    exists i :: 0 <= i < |s| - 1 && s[i] == CR && s[i + 1] == LF
  }

  predicate NormalNode(node: Node) {
    match node.data
    case Text(kind, text) => !HasCrlf(text) && (kind == BigNumber ==> AllDigits(text))
    case Attribute(_) => node.attribute.Some?
    case _ => true
  }

  predicate Normal(node: Node) {
    All(node, NormalNode, NormalTable)
  }

  // ----- printable: what fits an `int` count and the 1024-byte format buffer

  const MAX_COUNT := 0x7FFF_FFFF
  const MAX_TEXT := 1021

  predicate PrintableNode(node: Node) {
    match node.data
    case Blob(_, bytes) => |bytes| <= MAX_COUNT
    case Text(_, text) => |CString(text)| <= MAX_TEXT
    case Aggregate(_, elements) => |elements| <= MAX_COUNT
    case _ => true
  }

  predicate PrintableTable(table: Table) {
    && |table.pairs| + |table.fields| <= MAX_COUNT
    && forall i :: 0 <= i < |table.fields| ==> |table.fields[i].name| <= MAX_COUNT
  }

  predicate Printable(node: Node) {
    All(node, PrintableNode, PrintableTable)
  }

  // ----- zero-free: nothing prints the count 0, which a set `errno` makes unreadable

  predicate ZeroFreeNode(node: Node) {
    match node.data
    case Blob(_, bytes) => bytes != []
    case Aggregate(_, elements) => elements != []
    case _ => true
  }

  predicate ZeroFreeTable(table: Table) {
    |table.pairs| + |table.fields| > 0 && forall i :: 0 <= i < |table.fields| ==> table.fields[i].name != []
  }

  predicate ZeroFree(node: Node) {
    All(node, ZeroFreeNode, ZeroFreeTable)
  }

  // ----- faithful: no text that `%s` cuts short, no boolean that is read back wrong

  predicate FaithfulNode(node: Node) {
    match node.data
    case Text(_, text) => 0 !in text
    case Boolean(truth) => truth
    case _ => true
  }

  predicate AnyTable(table: Table) {
    true
  }

  predicate Faithful(node: Node) {
    All(node, FaithfulNode, AnyTable)
  }

  // ----- the tree read back from a print

  function Reread(node: Node): Node {
    Node(match node.attribute case None => None case Some(table) => Some(RereadTable(table)), RereadData(node.data))
  }

  function RereadData(data: Data): Data {
    match data
    case Text(kind, text) => Text(kind, CString(text))
    case Boolean(_) => Boolean(true)
    case Aggregate(kind, elements) => Aggregate(kind, RereadAll(elements))
    case Map(table) => Map(RereadTable(table))
    case Attribute(table) => Attribute(RereadTable(table))
    case _ => data
  }

  function RereadAll(nodes: seq<Node>): (r: seq<Node>)
    ensures |r| == |nodes|
  {
    if nodes == [] then [] else [Reread(nodes[0])] + RereadAll(nodes[1..])
  }

  function RereadTable(table: Table): Table {
    Table(RereadPairs(table.pairs), RereadFields(table.fields))
  }

  function RereadPairs(pairs: seq<Pair>): (r: seq<Pair>)
    ensures |r| == |pairs|
  {
    if pairs == [] then [] else [RereadPair(pairs[0])] + RereadPairs(pairs[1..])
  }

  function RereadPair(pair: Pair): Pair {
    Pair(Reread(pair.key), Reread(pair.value))
  }

  function RereadFields(fields: seq<Field>): (r: seq<Field>)
    ensures |r| == |fields|
  {
    if fields == [] then [] else [RereadField(fields[0])] + RereadFields(fields[1..])
  }

  function RereadField(field: Field): Field {
    Field(field.name, Reread(field.content))
  }

  // ----- a tree comes back unchanged exactly when it is faithful

  lemma {:induction false} CStringWhole(text: seq<byte>)
    ensures CString(text) == text <==> 0 !in text
  {
    if text != [] {
      CStringWhole(text[1..]);
      assert text == [text[0]] + text[1..];
    }
  }

  lemma {:induction false} RereadFixed(node: Node)
    ensures Reread(node) == node <==> Faithful(node)
  {
    if node.attribute.Some? { RereadTableFixed(node.attribute.value); }
    RereadDataFixed(node.data);
  }

  lemma {:induction false} RereadDataFixed(data: Data)
    ensures RereadData(data) == data <==>
            AllData(data, FaithfulNode, AnyTable) && FaithfulNode(Node(None, data))
  {
    match data
    case Text(_, text) => CStringWhole(text);
    case Aggregate(_, elements) => RereadAllFixed(elements);
    case Map(table) => RereadTableFixed(table);
    case Attribute(table) => RereadTableFixed(table);
    case _ =>
  }

  lemma {:induction false} RereadAllFixed(nodes: seq<Node>)
    ensures RereadAll(nodes) == nodes <==> AllNodes(nodes, FaithfulNode, AnyTable)
  {
    if nodes != [] {
      RereadFixed(nodes[0]);
      RereadAllFixed(nodes[1..]);
      assert nodes == [nodes[0]] + nodes[1..];
    }
  }

  lemma {:induction false} RereadTableFixed(table: Table)
    ensures RereadTable(table) == table <==> AllTable(table, FaithfulNode, AnyTable)
  {
    RereadPairsFixed(table.pairs);
    RereadFieldsFixed(table.fields);
  }

  lemma {:induction false} RereadPairsFixed(pairs: seq<Pair>)
    ensures RereadPairs(pairs) == pairs <==> AllPairs(pairs, FaithfulNode, AnyTable)
  {
    if pairs != [] {
      RereadPairFixed(pairs[0]);
      RereadPairsFixed(pairs[1..]);
      assert pairs == [pairs[0]] + pairs[1..];
    }
  }

  lemma {:induction false} RereadPairFixed(pair: Pair)
    ensures RereadPair(pair) == pair <==> AllPair(pair, FaithfulNode, AnyTable)
  {
    RereadFixed(pair.key);
    RereadFixed(pair.value);
  }

  lemma {:induction false} RereadFieldsFixed(fields: seq<Field>)
    ensures RereadFields(fields) == fields <==> AllFields(fields, FaithfulNode, AnyTable)
  {
    if fields != [] {
      var field := fields[0];
      RereadFixed(field.content);
      RereadFieldsFixed(fields[1..]);
      assert fields == [field] + fields[1..];
    }
  }
}
