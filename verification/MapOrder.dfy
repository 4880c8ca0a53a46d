/** The tables that maps parse into: sorted fields, last binding wins, other pairs in order. */
module MapOrder {
  import opened Bytes
  import opened Protocol

  lemma {:induction false} LessTotal(a: seq<byte>, b: seq<byte>)
    ensures Less(a, b) || a == b || Less(b, a)
    ensures !(Less(a, b) && Less(b, a))
    ensures !Less(a, a)
  {
    if a != [] && b != [] {
      LessTotal(a[1..], b[1..]);
      if a[0] == b[0] {
        assert a == [a[0]] + a[1..] && b == [b[0]] + b[1..];
      }
    }
    if a != [] {
      LessTotal(a[1..], a[1..]);
    }
  }

  lemma {:induction false} LessTransitive(a: seq<byte>, b: seq<byte>, c: seq<byte>)
    requires Less(a, b) && Less(b, c)
    ensures Less(a, c)
  {
    if a != [] && a[0] == b[0] == c[0] {
      LessTransitive(a[1..], b[1..], c[1..]);
    }
  }

  /** The order of names: at the first place where they differ the smaller byte, or an end, comes first. */
  lemma {:induction false} LessIsLexicographic(a: seq<byte>, b: seq<byte>)
    ensures Less(a, b) <==>
            exists i :: 0 <= i <= |a| && i < |b| && a[..i] == b[..i] && (i == |a| || a[i] < b[i])
  {
    forall i | 0 < i <= |a| && i < |b| && a[..i] == b[..i]
      ensures a[0] == b[0]
    {
      assert a[..i][0] == b[..i][0];
    }
    if a == [] || b == [] || a[0] != b[0] {
      assert a[..0] == b[..0];
    } else {
      LessIsLexicographic(a[1..], b[1..]);
      forall i | 0 < i <= |a| && i < |b|
        ensures a[..i] == b[..i] <==> a[1..][..i - 1] == b[1..][..i - 1]
      {
        assert a[..i] == [a[0]] + a[1..][..i - 1] && b[..i] == [b[0]] + b[1..][..i - 1];
      }
      if i :| 0 <= i <= |a[1..]| && i < |b[1..]| && a[1..][..i] == b[1..][..i]
              && (i == |a[1..]| || a[1..][i] < b[1..][i]) {
        assert a[..i + 1] == b[..i + 1];
      }
      if i :| 0 < i <= |a| && i < |b| && a[..i] == b[..i] && (i == |a| || a[i] < b[i]) {
        assert a[1..][..i - 1] == b[1..][..i - 1];
      }
    }
  }

  /** Simple strings and blob strings name fields; the null blob string names the empty one. */
  lemma StringKeysAre(key: Node, name: seq<byte>)
    ensures StringKey(key) == Some(name) <==>
            || key.data == Text(SimpleString, name) || key.data == Blob(BlobString, name)
            || (key.data == NullBlob(BlobString) && name == [])
  {}

  predicate Sorted(fields: seq<Field>) {
    forall i, j :: 0 <= i < j < |fields| ==> Less(fields[i].name, fields[j].name)
  }

  predicate NoStringKeys(pairs: seq<Pair>) {
    forall i :: 0 <= i < |pairs| ==> StringKey(pairs[i].key).None?
  }

  predicate NormalTable(table: Table) {
    NoStringKeys(table.pairs) && Sorted(table.fields)
  }

  function Find(fields: seq<Field>, name: seq<byte>): Option<Node> {
    if fields == [] then None
    else if fields[0].name == name then Some(fields[0].content)
    else Find(fields[1..], name)
  }

  /** Where `SetField` puts a name: every other name stays. */
  lemma {:induction false} SetFieldSorted(fields: seq<Field>, name: seq<byte>, content: Node)
    requires Sorted(fields)
    ensures Sorted(SetField(fields, name, content))
    ensures forall f :: f in SetField(fields, name, content) <==>
              f == Field(name, content) || (f in fields && f.name != name)
  {
    if fields != [] {
      var rest := fields[1..];
      assert fields == [fields[0]] + rest;
      SetFieldSorted(rest, name, content);
      LessTotal(name, fields[0].name);
      forall f | f in rest
        ensures Less(fields[0].name, f.name) && f.name != fields[0].name
        ensures Less(name, fields[0].name) ==> Less(name, f.name) && f.name != name
      {
        LessTotal(fields[0].name, f.name);
        if Less(name, fields[0].name) {
          LessTransitive(name, fields[0].name, f.name);
          LessTotal(name, f.name);
        }
      }
      var s := SetField(rest, name, content);
      assert forall f :: f in [fields[0]] + s <==> f == fields[0] || f in s;
    }
  }

  lemma {:induction false} SetFieldFinds(fields: seq<Field>, name: seq<byte>, content: Node, other: seq<byte>)
    ensures Find(SetField(fields, name, content), other) == if other == name then Some(content) else Find(fields, other)
  {
    if fields != [] {
      SetFieldFinds(fields[1..], name, content, other);
    }
  }

  lemma {:induction false} FindAbsent(fields: seq<Field>, name: seq<byte>)
    requires forall f :: f in fields ==> f.name != name
    ensures Find(fields, name) == None
  {
    if fields != [] {
      FindAbsent(fields[1..], name);
    }
  }

  // ----- what sorting out the pairs of a map comes to

  /** The pairs whose key is no string. */
  function OtherPairs(pairs: seq<Pair>): seq<Pair> {
    if pairs == [] then []
    else (if StringKey(pairs[0].key).None? then [pairs[0]] else []) + OtherPairs(pairs[1..])
  }

  /** The value of the last pair whose key is the string `name`. */
  function LastBinding(pairs: seq<Pair>, name: seq<byte>, default: Option<Node>): Option<Node>
    decreases |pairs|
  {
    if pairs == [] then default
    else LastBinding(pairs[1..], name,
                     if StringKey(pairs[0].key) == Some(name) then Some(pairs[0].value) else default)
  }

  lemma AbsorbNormal(table: Table, pair: Pair)
    requires NormalTable(table)
    ensures NormalTable(Absorb(table, pair))
    ensures Absorb(table, pair).pairs == table.pairs + (if StringKey(pair.key).None? then [pair] else [])
  {
    hide Sorted, Protocol.SetField, StringKey;
    var key := StringKey(pair.key);
    if key.Some? {
      SetFieldSorted(table.fields, key.value, pair.value);
    }
  }

  lemma {:induction false} AbsorbAllNormal(table: Table, pairs: seq<Pair>)
    requires NormalTable(table)
    ensures NormalTable(AbsorbAll(table, pairs))
    ensures AbsorbAll(table, pairs).pairs == table.pairs + OtherPairs(pairs)
    decreases |pairs|
  {
    hide NormalTable, Absorb, StringKey;
    if pairs != [] {
      AbsorbNormal(table, pairs[0]);
      AbsorbAllNormal(Absorb(table, pairs[0]), pairs[1..]);
    }
  }

  lemma {:induction false} AbsorbAllFinds(table: Table, pairs: seq<Pair>, name: seq<byte>)
    ensures Find(AbsorbAll(table, pairs).fields, name) == LastBinding(pairs, name, Find(table.fields, name))
    decreases |pairs|
  {
    hide Find, Protocol.SetField, StringKey;
    if pairs != [] {
      var key := StringKey(pairs[0].key);
      if key.Some? {
        SetFieldFinds(table.fields, key.value, pairs[0].value, name);
      }
      AbsorbAllFinds(Absorb(table, pairs[0]), pairs[1..], name);
    }
  }

  /** A parsed map keeps every pair with a non-string key, in order, and binds each string key to its
      last value. */
  lemma MapMeaning(pairs: seq<Pair>, name: seq<byte>)
    ensures var table := AbsorbAll(EMPTY_TABLE, pairs);
      NormalTable(table) && table.pairs == OtherPairs(pairs)
        && Find(table.fields, name) == LastBinding(pairs, name, None)
  {
    AbsorbAllNormal(EMPTY_TABLE, pairs);
    AbsorbAllFinds(EMPTY_TABLE, pairs, name);
  }

  // ----- a normal table is its own normal form

  function FieldPairs(fields: seq<Field>): (pairs: seq<Pair>)
    ensures |pairs| == |fields|
  {
    seq(|fields|, i requires 0 <= i < |fields| => Pair(Node(None, Blob(BlobString, fields[i].name)), fields[i].content))
  }

  lemma {:induction false} AppendLargest(fields: seq<Field>, name: seq<byte>, content: Node)
    requires forall i :: 0 <= i < |fields| ==> Less(fields[i].name, name)
    ensures SetField(fields, name, content) == fields + [Field(name, content)]
  {
    if fields != [] {
      LessTotal(fields[0].name, name);
      AppendLargest(fields[1..], name, content);
    }
  }

  lemma {:induction false} AbsorbFields(table: Table, fields: seq<Field>)
    requires Sorted(table.fields + fields)
    ensures AbsorbAll(table, FieldPairs(fields)) == Table(table.pairs, table.fields + fields)
    decreases |fields|
  {
    if fields == [] {
      assert table.fields + fields == table.fields;
    } else {
      var all := table.fields + fields;
      var f := fields[0];
      forall i | 0 <= i < |table.fields|
        ensures Less(table.fields[i].name, f.name)
      {
        assert all[i] == table.fields[i] && all[|table.fields|] == f;
      }
      AppendLargest(table.fields, f.name, f.content);
      assert all == (table.fields + [f]) + fields[1..];
      assert FieldPairs(fields)[1..] == FieldPairs(fields[1..]);
      assert Absorb(table, FieldPairs(fields)[0]) == Table(table.pairs, table.fields + [Field(f.name, f.content)]);
      AbsorbFields(Table(table.pairs, table.fields + [f]), fields[1..]);
    }
  }

  lemma {:induction false} AbsorbOthers(table: Table, pairs: seq<Pair>, rest: seq<Pair>)
    requires NoStringKeys(pairs)
    ensures AbsorbAll(table, pairs + rest) == AbsorbAll(Table(table.pairs + pairs, table.fields), rest)
    decreases |pairs|
  {
    if pairs == [] {
      assert pairs + rest == rest && table.pairs + pairs == table.pairs;
    } else {
      assert (pairs + rest)[1..] == pairs[1..] + rest;
      assert StringKey(pairs[0].key).None?;
      AbsorbOthers(Table(table.pairs + [pairs[0]], table.fields), pairs[1..], rest);
      assert table.pairs + [pairs[0]] + pairs[1..] == table.pairs + pairs;
    }
  }

  lemma NormalTableIsFixed(table: Table)
    requires NormalTable(table)
    ensures AbsorbAll(EMPTY_TABLE, table.pairs + FieldPairs(table.fields)) == table
  {
    AbsorbOthers(EMPTY_TABLE, table.pairs, FieldPairs(table.fields));
    assert [] + table.pairs == table.pairs && [] + table.fields == table.fields;
    AbsorbFields(Table(table.pairs, []), table.fields);
  }
}
