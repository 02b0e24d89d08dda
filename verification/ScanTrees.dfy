/** The directory nodes of a scanned tree. */
module ScanTrees {
  import opened Base
  import opened SyncOps
  import opened Drives
  import opened Merkle
  import opened TreeHash
  import opened Scan

  /** `text` is the strings `parts`, one after the other. */
  ghost predicate Spells(text: string, parts: seq<string>)
    decreases |parts|
  {
    if parts == [] then text == "" else parts[0] <= text && Spells(text[|parts[0]|..], parts[1..])
  }

  lemma {:induction false} SpellsAppend(text: string, parts: seq<string>, more: string)
    requires Spells(text, parts)
    ensures Spells(text + more, parts + [more])
    decreases |parts|
  {
    var all, longer := text + more, parts + [more];
    if parts == [] {
      assert all == more && longer == [more];
      assert all[|more|..] == "" && longer[1..] == [];
    } else {
      var n := |parts[0]|;
      SpellsAppend(text[n..], parts[1..], more);
      assert all[n..] == text[n..] + more && longer[1..] == parts[1..] + [more];
      assert all[..n] == text[..n];
    }
  }

  lemma {:induction false} ConcatSpells(parts: seq<string>)
    ensures Spells(Concat(parts), parts)
  {
    if parts != [] {
      ConcatSpells(parts[..|parts| - 1]);
      SpellsAppend(Concat(parts[..|parts| - 1]), parts[..|parts| - 1], parts[|parts| - 1]);
      assert parts == parts[..|parts| - 1] + [parts[|parts| - 1]];
    }
  }

  /** A directory's hash is the digest of its entries' hashes, written one after the other in ascending order. */
  lemma DirectoryHashIs(g: string -> Digest, hashes: seq<Digest>, text: string, ascending: seq<Digest>)
    requires multiset(ascending) == multiset(hashes) && Spells(text, ascending)
    requires forall i, j :: 0 <= i < j < |ascending| ==> ascending[i] == ascending[j] || Less(ascending[i], ascending[j])
    ensures DirectoryHash(g, hashes) == g(text)
  {
    forall i, j | 0 <= i < j < |ascending|
      ensures !Less(ascending[j], ascending[i])
    {
      LessTotal(ascending[i], ascending[j]);
    }
    SortOrders(hashes);
    OrderedUnique(ascending, SortStrings(hashes));
    ConcatSpells(ascending);
    SpelledOnce(text, Concat(ascending), ascending);
  }

  lemma {:induction false} SpelledOnce(a: string, b: string, parts: seq<string>)
    requires Spells(a, parts) && Spells(b, parts)
    ensures a == b
    decreases |parts|
  {
    if parts != [] {
      var n := |parts[0]|;
      SpelledOnce(a[n..], b[n..], parts[1..]);
      assert a == a[..n] + a[n..] && b == b[..n] + b[n..];
    }
  }

  /** The entries of a directory that a scan keeps, in name order, and the nodes they become. */
  ghost predicate KeptEntries(p: Path, e: Item, names: seq<string>, kept: seq<string>, nodes: seq<Node>)
    requires e.Dir?
  {
    && |kept| == |nodes| && (forall i, j :: 0 <= i < j < |kept| ==> Less(kept[i], kept[j]))
    && forall i :: 0 <= i < |kept| ==> KeptEntry(p, e, names, kept[i], nodes[i])
  }

  ghost predicate KeptEntry(p: Path, e: Item, names: seq<string>, k: string, node: Node)
    requires e.Dir?
  {
    && k in names && k in e.entries && !("." <= k) && !e.entries[k].Other?
    && node.hash != "" && node.path == (if p == "." then k else p + "/" + k)
    && node.level == if e.entries[k].Dir? then 1 else 0
  }

  /** No directory is left out, unless its name starts with a dot. */
  ghost predicate DirsKept(e: Item, names: seq<string>, kept: seq<string>)
    requires e.Dir?
  {
    forall k :: k in names && k in e.entries && e.entries[k].Dir? && !("." <= k) ==> k in kept
  }

  lemma EntryNode(h: Bytes -> Digest, g: string -> Digest, k: string, m: Manifest, p: Path, e: Item)
    requires NeverEmpty(g)
    ensures var n := Build(h, g, k, m, p, e).0;
      && n.path == p && (n.hash != "" ==> !("." <= k) && !e.Other? && n.level == if e.Dir? then 1 else 0)
      && (e.Dir? && !("." <= k) ==> n.hash != "" && n.level == 1)
  {
    hide BuildAll;
    hide FileEntry;
    assert "." <= k <==> Hidden(k);
  }

  lemma {:induction false} EntryNodes(
    h: Bytes -> Digest, g: string -> Digest, m: Manifest, p: Path, e: Item, names: seq<string>)
    returns (kept: seq<string>)
    requires NeverEmpty(g) && e.Dir? && StrictlySorted(names) && forall k :: k in names ==> k in e.entries
    ensures KeptEntries(p, e, names, kept, BuildAll(h, g, m, p, e, names).0) && DirsKept(e, names, kept)
    decreases |names|
  {
    hide Build;
    hide KeptEntries;
    hide DirsKept;
    hide StrictlySorted;
    hide NeverEmpty;
    kept := [];
    if names == [] {
      NoneKept(p, e);
    } else {
      var front, last := names[..|names| - 1], names[|names| - 1];
      FrontOf(names, front, last);
      var before, m1 := BuildAll(h, g, m, p, e, front).0, BuildAll(h, g, m, p, e, front).1;
      kept := EntryNodes(h, g, m, p, e, front);
      var node := Build(h, g, last, m1, Prefix(p) + last, e.entries[last]).0;
      EntryNode(h, g, last, m1, Prefix(p) + last, e.entries[last]);
      if node.hash != "" {
        OneMoreKept(p, e, names, front, last, kept, before, node);
        kept := kept + [last];
      } else {
        NoneMoreKept(p, e, names, front, last, kept, before);
      }
    }
  }

  lemma NoneKept(p: Path, e: Item)
    requires e.Dir?
    ensures KeptEntries(p, e, [], [], []) && DirsKept(e, [], [])
  {
  }

  lemma FrontOf(names: seq<string>, front: seq<string>, last: string)
    requires StrictlySorted(names) && names != [] && front == names[..|names| - 1] && last == names[|names| - 1]
    ensures StrictlySorted(front) && names == front + [last] && last in names && forall k :: k in front ==> k in names
  {
  }

  lemma NoneMoreKept(
    p: Path, e: Item, names: seq<string>, front: seq<string>, last: string, kept: seq<string>, nodes: seq<Node>)
    requires e.Dir? && names == front + [last] && last in e.entries
    requires KeptEntries(p, e, front, kept, nodes) && DirsKept(e, front, kept)
    requires e.entries[last].Dir? ==> "." <= last
    ensures KeptEntries(p, e, names, kept, nodes) && DirsKept(e, names, kept)
  {
    forall i | 0 <= i < |kept|
      ensures KeptEntry(p, e, names, kept[i], nodes[i])
    {
      assert KeptEntry(p, e, front, kept[i], nodes[i]);
    }
  }

  lemma OneMoreKept(
    p: Path, e: Item, names: seq<string>, front: seq<string>, last: string, kept: seq<string>, nodes: seq<Node>, node: Node)
    requires e.Dir? && names == front + [last] && last in e.entries && StrictlySorted(names)
    requires KeptEntries(p, e, front, kept, nodes) && DirsKept(e, front, kept)
    requires node.hash != "" && node.path == Prefix(p) + last && !("." <= last) && !e.entries[last].Other?
    requires node.level == if e.entries[last].Dir? then 1 else 0
    ensures KeptEntries(p, e, names, kept + [last], nodes + [node]) && DirsKept(e, names, kept + [last])
  {
    var longer, all := kept + [last], nodes + [node];
    forall i | 0 <= i < |longer|
      ensures KeptEntry(p, e, names, longer[i], all[i])
    {
      assert i < |kept| ==> KeptEntry(p, e, front, kept[i], nodes[i]);
    }
    forall i | 0 <= i < |kept|
      ensures Less(kept[i], last)
    {
      assert KeptEntry(p, e, front, kept[i], nodes[i]);
      var k :| 0 <= k < |front| && front[k] == kept[i];
      assert names[k] == kept[i] && names[|front|] == last;
    }
    assert last in longer && forall k :: k in kept ==> k in longer;
  }

  /** A directory's node: its path, level one, the nodes of its entries in name order without those that have no
      hash, and the digest of their hashes. A directory that cannot be listed counts as an empty one. */
  lemma DirectoryNode(h: Bytes -> Digest, g: string -> Digest, name: string, m: Manifest, p: Path, e: Item)
    returns (names: seq<string>, kept: seq<string>, hashes: seq<Digest>)
    requires NeverEmpty(g) && e.Dir? && !("." <= name)
    ensures var n := Build(h, g, name, m, p, e).0;
      && n.path == p && n.level == 1 && n.hash == DirectoryHash(g, hashes)
      && |hashes| == |n.children| && (forall i :: 0 <= i < |hashes| ==> hashes[i] == n.children[i].hash)
      && (forall k :: k in names <==> k in e.entries && e.listable)
      && KeptEntries(p, e, names, kept, n.children) && DirsKept(e, names, kept)
  {
    hide DirectoryHash;
    hide BuildAll;
    hide KeptEntries;
    hide DirsKept;
    names, kept := [], [];
    if e.listable {
      names := Sorted(e.entries.Keys);
      kept := EntryNodes(h, g, m, p, e, names);
    } else {
      NoneKept(p, e);
    }
    hashes := Hashes(Build(h, g, name, m, p, e).0.children);
    assert !Hidden(name);
  }
}
