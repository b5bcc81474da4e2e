/**
 * Worker/HashTable.c: buckets of singly linked nodes.  Each method is a call
 * made while no other thread touches the buckets it visits, as the locks of the
 * buckets ensure; the scans that take one lock after another are taken apart in
 * module Replication.
 */
module HashTable {
  import opened Config
  import opened HashSpec

  class DataNode {
    const key: Bytes
    var value: Bytes
    var next: DataNode?

    constructor (key: Bytes, value: Bytes, next: DataNode?)
      ensures this.key == key && this.value == value && this.next == next
    {
      this.key, this.value, this.next := key, value, next;
    }
  }

  /** The chain that starts at `head` runs through `nodes` and stores `chain`. */
  ghost predicate Linked(head: DataNode?, nodes: seq<DataNode>, chain: Chain)
    reads nodes
  {
    && |nodes| == |chain|
    && head == (if nodes == [] then null else nodes[0])
    && (forall i {:trigger nodes[i].next} :: 0 <= i < |nodes| ==>
          nodes[i].next == if i + 1 < |nodes| then nodes[i + 1] else null)
    && (forall i {:trigger chain[i]} :: 0 <= i < |nodes| ==> Pair(nodes[i].key, nodes[i].value) == chain[i])
  }

  class HashTable {
    const buckets: array<DataNode?>
    ghost var chains: seq<seq<DataNode>>
    ghost var table: Table
    ghost var nodes: set<DataNode>

    ghost predicate Valid()
      reads this, buckets, nodes
    {
      && buckets.Length == BUCKET_COUNT == |chains|
      && HashSpec.Valid(table)
      && (forall b, i :: 0 <= b < BUCKET_COUNT && 0 <= i < |chains[b]| ==> chains[b][i] in nodes)
      && (forall b :: 0 <= b < BUCKET_COUNT ==> Linked(buckets[b], chains[b], table[b]))
    }

    constructor ()
      ensures Valid() && table == EmptyTable()
      ensures fresh(buckets) && nodes == {}
    {
      buckets := new DataNode?[BUCKET_COUNT](_ => null);
      chains := seq(BUCKET_COUNT, _ => []);
      table := EmptyTable();
      nodes := {};
    }

    method HasHashTable(key: Bytes) returns (r: int)
      requires Valid()
      ensures r == if key == [] then -1 else if Lookup(table, key).Some? then 1 else 0
    {
      if key == [] {
        return -1;
      }
      var b := HashFunction(key);
      var node := FindNode(b, key);
      r := if node == null then 0 else 1;
    }

    method GetHashTable(key: Bytes) returns (r: int, value: Bytes)
      requires Valid()
      ensures key == [] ==> r == -1
      ensures key != [] ==> match Lookup(table, key)
        case None => r == 0
        case Some(v) => r == 1 && value == v
    {
      value := [];
      if key == [] {
        return -1, value;
      }
      var b := HashFunction(key);
      var node := FindNode(b, key);
      if node == null {
        return 0, value;
      }
      r, value := 1, node.value;
    }

    /** The walk along a chain that Has, Get and Set begin with. */
    method FindNode(b: nat, key: Bytes) returns (node: DataNode?)
      requires Valid() && b < BUCKET_COUNT
      ensures var k := Find(table[b], key);
        if k == |table[b]| then node == null
        else node == chains[b][k] && node.key == key && node.value == table[b][k].value
    {
      ghost var chain, k := table[b], 0;
      node := buckets[b];
      assert Linked(buckets[b], chains[b], chain);
      while node != null
        invariant k <= |chain|
        invariant node == if k < |chain| then chains[b][k] else null
        invariant forall j :: 0 <= j < k ==> chain[j].key != key
        decreases |chain| - k
      {
        assert Pair(node.key, node.value) == chain[k];
        if node.key == key {
          assert k == Find(chain, key);
          return;
        }
        node := node.next;
        k := k + 1;
      }
    }

    /** A node occurs once: its key determines its bucket and its place in the chain. */
    lemma NodeOccursOnce(b: nat, k: nat, c: nat, i: nat)
      requires Valid() && b < BUCKET_COUNT && k < |chains[b]| && c < BUCKET_COUNT && i < |chains[c]|
      requires chains[b][k] == chains[c][i]
      ensures b == c && k == i
    {
      assert Linked(buckets[b], chains[b], table[b]) && Linked(buckets[c], chains[c], table[c]);
      assert ValidChain(table[b], b) && ValidChain(table[c], c);
      assert table[b][k].key == table[c][i].key;
    }

    method Overwrite(node: DataNode, ghost b: nat, ghost k: nat, value: Bytes)
      requires Valid() && b < BUCKET_COUNT && k < |chains[b]| && node == chains[b][k]
      requires b == Bucket(node.key) && k == Find(table[b], node.key)
      modifies node`value, this`table
      ensures Valid() && table == Set(old(table), node.key, value)
    {
      forall c: nat, i: nat | c < BUCKET_COUNT && i < |chains[c]| && chains[c][i] == node
        ensures c == b && i == k
      {
        NodeOccursOnce(b, k, c, i);
      }
      SetKeepsValid(table, node.key, value);
      assert forall c :: 0 <= c < BUCKET_COUNT ==> Linked(buckets[c], chains[c], table[c]);
      node.value := value;
      table := Set(table, node.key, value);
    }

    method InsertFirst(key: Bytes, value: Bytes, b: nat)
      requires Valid() && key != [] && b == Bucket(key) && Find(table[b], key) == |table[b]|
      modifies this, buckets
      ensures Valid() && fresh(nodes - old(nodes)) && table == Set(old(table), key, value)
    {
      hide HashSpec.Valid, Find, Bucket;
      SetKeepsValid(table, key, value);
      assert Linked(buckets[b], chains[b], table[b]);
      var newNode := new DataNode(key, value, buckets[b]);
      buckets[b] := newNode;
      chains := chains[b := [newNode] + chains[b]];
      nodes := nodes + {newNode};
      table := Set(table, key, value);
    }

    method SetHashTable(key: Bytes, value: Bytes) returns (r: int)
      requires Valid()
      modifies this, buckets, nodes
      ensures Valid() && fresh(nodes - old(nodes))
      ensures r == if key == [] then -1 else 1
      ensures table == if key == [] then old(table) else Set(old(table), key, value)
    {
      if key == [] {
        return -1;
      }
      var b := HashFunction(key);
      var node := FindNode(b, key);
      if node != null {
        Overwrite(node, b, Find(table[b], key), value);
      } else {
        InsertFirst(key, value, b);
      }
      r := 1;
    }

    /** GetHashTableStats, as far as the number of items goes. */
    method GetHashTableCount() returns (totalItems: nat)
      requires Valid()
      ensures totalItems == |Pairs(table)| == |Contents(table)|
    {
      totalItems := 0;
      for b := 0 to buckets.Length
        invariant totalItems == |Flat(table, b)|
      {
        ghost var chain, k := table[b], 0;
        var node := buckets[b];
        assert Linked(buckets[b], chains[b], chain);
        while node != null
          invariant k <= |chain|
          invariant node == if k < |chain| then chains[b][k] else null
          invariant totalItems == |Flat(table, b)| + k
          decreases |chain| - k
        {
          totalItems := totalItems + 1;
          node := node.next;
          k := k + 1;
        }
      }
      SizeIsContents(table);
    }

    /** The part of an export that holds one bucket's lock; `already` messages were sent before it. */
    method SendBucket(b: nat, already: nat, send: nat -> int) returns (ok: bool, sent: seq<ExportMessage>)
      requires Valid() && b < BUCKET_COUNT
      ensures |sent| <= |table[b]| && sent == AsData(table[b][..|sent|])
      ensures forall k :: already <= k < already + |sent| ==> send(k) > 0
      ensures if |sent| == |table[b]| then ok else !ok && send(already + |sent|) <= 0
    {
      ok, sent := true, [];
      ghost var chain := table[b];
      var node := buckets[b];
      assert Linked(buckets[b], chains[b], chain);
      while node != null
        invariant |sent| <= |chain| && sent == AsData(chain[..|sent|])
        invariant node == if |sent| < |chain| then chains[b][|sent|] else null
        invariant forall k :: already <= k < already + |sent| ==> send(k) > 0
        decreases |chain| - |sent|
      {
        assert Pair(node.key, node.value) == chain[|sent|];
        if send(already + |sent|) <= 0 {
          return false, sent;
        }
        sent := sent + [Data(Pair(node.key, node.value))];
        node := node.next;
      }
    }

    /** The messages up to the last bucket, once the start message has gone out. */
    method SendBuckets(total: nat, send: nat -> int) returns (ok: bool, exportedCount: nat, sent: seq<ExportMessage>)
      requires Valid() && total == |Pairs(table)| && send(0) > 0
      ensures sent <= ExportScript(table) && |sent| == 1 + exportedCount < |ExportScript(table)|
      ensures forall k :: 0 <= k < |sent| ==> send(k) > 0
      ensures if ok then exportedCount == |Pairs(table)| else send(|sent|) <= 0
    {
      hide ExportScript;
      ghost var script := ExportScript(table);
      ScriptStarts(table);
      ok, exportedCount, sent := true, 0, [Start(total)];
      for b := 0 to buckets.Length
        invariant ok && sent <= script && |sent| == 1 + |Flat(table, b)| == 1 + exportedCount < |script|
        invariant forall k :: 0 <= k < |sent| ==> send(k) > 0
      {
        var data;
        ok, data := SendBucket(b, |sent|, send);
        BucketInScript(table, b, |data|);
        assert sent + data == script[..|sent| + |data|];
        sent := sent + data;
        exportedCount := exportedCount + |data|;
        if !ok {
          return;
        }
      }
    }

    /**
     * The k-th message sent is answered by `send(k)`; `sent` lists those that
     * went through.  `isConnected` is what GetPeerConnection finds.
     */
    method ExportHashTableToPeer(isConnected: bool, send: nat -> int)
      returns (r: int, exportedCount: nat, sent: seq<ExportMessage>)
      requires Valid()
      ensures !isConnected ==> r == -1 && sent == []
      ensures isConnected ==> sent <= ExportScript(table) && (forall k :: 0 <= k < |sent| ==> send(k) > 0)
      ensures isConnected ==>
                if sent == ExportScript(table) then r == 0 && exportedCount == |Contents(table)|
                else r == -1 && send(|sent|) <= 0
    {
      exportedCount, sent := 0, [];
      if !isConnected {
        return -1, exportedCount, sent;
      }
      var total := GetHashTableCount();
      if send(0) <= 0 {
        return -1, exportedCount, sent;
      }
      var ok;
      ok, exportedCount, sent := SendBuckets(total, send);
      if !ok {
        return -1, exportedCount, sent;
      }
      assert sent + [End] == ExportScript(table);
      if send(|sent|) <= 0 {
        return -1, exportedCount, sent;
      }
      sent := sent + [End];
      r := 0;
    }
  }
}
