/** Which files the walk over a package tree finds, said without the walk: those at the end of a path of names. */
module TreeWalk {
  import opened Wrappers
  import opened TreeDigest
  import T = Text
  import L = Lockfile

  /** Version control, build output and the cache's own file are no part of a package. */
  predicate Passed(name: string) { name in {".git", "target", ".ori-cache.json"} }

  /** This entry, or one below it, is found by following `names` down, through directories only. */
  ghost predicate LiesAt(e: Entry, names: seq<string>, node: Node)
    decreases e, 0
  {
    && names != [] && e.name == names[0] && !Passed(e.name)
    && if |names| == 1 then e.node == node else e.node.Dir? && Lies(e.node.entries, names[1..], node)
  }

  ghost predicate Lies(entries: seq<Entry>, names: seq<string>, node: Node)
    decreases entries, 1
  {
    exists i | 0 <= i < |entries| :: LiesAt(entries[i], names, node)
  }

  /** The file at this path, spelled below `prefix` with slashes. */
  ghost predicate Spells(f: FileAt, prefix: string, names: seq<string>) {
    f.path == L.Slashes(prefix + T.Join(names, "/"))
  }

  ghost predicate Found(entries: seq<Entry>, prefix: string, f: FileAt) {
    exists names :: Lies(entries, names, File(f.content)) && Spells(f, prefix, names)
  }

  ghost predicate FoundAt(e: Entry, prefix: string, f: FileAt) {
    exists names :: LiesAt(e, names, File(f.content)) && Spells(f, prefix, names)
  }

  ghost predicate HasLink(entries: seq<Entry>) {
    exists names :: Lies(entries, names, Symlink)
  }

  ghost predicate HasLinkAt(e: Entry) {
    exists names :: LiesAt(e, names, Symlink)
  }

  lemma LiesCons(entries: seq<Entry>, names: seq<string>, node: Node)
    requires entries != []
    ensures Lies(entries, names, node) <==> LiesAt(entries[0], names, node) || Lies(entries[1..], names, node)
  {
    hide LiesAt;
    if i :| 0 <= i < |entries| && LiesAt(entries[i], names, node) {
      if i > 0 { assert entries[1..][i - 1] == entries[i]; }
    }
    if i :| 0 <= i < |entries[1..]| && LiesAt(entries[1..][i], names, node) {
      assert entries[i + 1] == entries[1..][i];
    }
  }

  lemma FoundCons(entries: seq<Entry>, prefix: string, f: FileAt)
    requires entries != []
    ensures Found(entries, prefix, f) <==> FoundAt(entries[0], prefix, f) || Found(entries[1..], prefix, f)
  {
    hide LiesAt, Lies, Spells;
    forall names ensures Lies(entries, names, File(f.content)) <==> LiesAt(entries[0], names, File(f.content)) || Lies(entries[1..], names, File(f.content)) {
      LiesCons(entries, names, File(f.content));
    }
  }

  lemma LinkCons(entries: seq<Entry>)
    requires entries != []
    ensures HasLink(entries) <==> HasLinkAt(entries[0]) || HasLink(entries[1..])
  {
    hide LiesAt, Lies;
    forall names ensures Lies(entries, names, Symlink) <==> LiesAt(entries[0], names, Symlink) || Lies(entries[1..], names, Symlink) {
      LiesCons(entries, names, Symlink);
    }
  }

  /** Below a directory the names go on after its own. */
  lemma LiesBelow(e: Entry, names: seq<string>, node: Node)
    requires e.node.Dir? && !Passed(e.name) && !node.Dir?
    ensures LiesAt(e, names, node) <==> |names| > 1 && names[0] == e.name && Lies(e.node.entries, names[1..], node)
  {
    hide Lies;
  }

  lemma {:induction false} SomeName(entries: seq<Entry>, names: seq<string>, node: Node)
    requires Lies(entries, names, node)
    ensures names != []
  {
  }

  lemma FoundBelow(e: Entry, prefix: string, f: FileAt)
    requires e.node.Dir? && !Passed(e.name)
    ensures FoundAt(e, prefix, f) <==> Found(e.node.entries, prefix + e.name + "/", f)
  {
    hide Lies, LiesAt;
    var inner, node := e.node.entries, File(f.content);
    if names :| LiesAt(e, names, node) && Spells(f, prefix, names) {
      LiesBelow(e, names, node);
      assert prefix + (e.name + "/" + T.Join(names[1..], "/")) == prefix + e.name + "/" + T.Join(names[1..], "/");
    }
    if names :| Lies(inner, names, node) && Spells(f, prefix + e.name + "/", names) {
      SomeName(inner, names, node);
      var all := [e.name] + names;
      assert all[1..] == names;
      LiesBelow(e, all, node);
      assert prefix + (e.name + "/" + T.Join(names, "/")) == prefix + e.name + "/" + T.Join(names, "/");
      assert Spells(f, prefix, all);
    }
  }

  lemma LinkBelow(e: Entry)
    requires e.node.Dir? && !Passed(e.name)
    ensures HasLinkAt(e) <==> HasLink(e.node.entries)
  {
    hide Lies, LiesAt;
    if names :| LiesAt(e, names, Symlink) { LiesBelow(e, names, Symlink); }
    if names :| Lies(e.node.entries, names, Symlink) {
      SomeName(e.node.entries, names, Symlink);
      assert ([e.name] + names)[1..] == names;
      LiesBelow(e, [e.name] + names, Symlink);
    }
  }

  lemma FoundHere(e: Entry, prefix: string, f: FileAt)
    requires !e.node.Dir? || Passed(e.name)
    ensures FoundAt(e, prefix, f) <==> !Passed(e.name) && e.node == File(f.content) && f.path == L.Slashes(prefix + e.name)
    ensures HasLinkAt(e) <==> !Passed(e.name) && e.node == Symlink
  {
    forall names, node ensures LiesAt(e, names, node) <==> names == [e.name] && !Passed(e.name) && e.node == node {}
    assert T.Join([e.name], "/") == e.name;
    if !Passed(e.name) {
      assert LiesAt(e, [e.name], e.node);
      if e.node == File(f.content) && f.path == L.Slashes(prefix + e.name) { assert Spells(f, prefix, [e.name]); }
    }
  }

  lemma {:induction false} EntryFinds(e: Entry, prefix: string)
    ensures CollectEntry(e, prefix).Err? <==> HasLinkAt(e)
    ensures CollectEntry(e, prefix).Ok? ==> forall f :: f in CollectEntry(e, prefix).value <==> FoundAt(e, prefix, f)
    decreases e, 0
  {
    hide FoundAt, HasLinkAt, Found, HasLink, Collect;
    if e.node.Dir? && !Passed(e.name) {
      WalkFinds(e.node.entries, prefix + e.name + "/");
      LinkBelow(e);
      forall f ensures FoundAt(e, prefix, f) <==> Found(e.node.entries, prefix + e.name + "/", f) { FoundBelow(e, prefix, f); }
    } else {
      FoundHere(e, prefix, FileAt("", ""));
      forall f ensures FoundAt(e, prefix, f) <==> !Passed(e.name) && e.node == File(f.content) && f.path == L.Slashes(prefix + e.name) {
        FoundHere(e, prefix, f);
      }
    }
  }

  /**
    The walk finds exactly the files that lie in the tree outside what is passed over, each under
    its path with slashes; and it fails exactly when a symbolic link lies there.
  */
  lemma {:induction false} WalkFinds(entries: seq<Entry>, prefix: string)
    ensures Collect(entries, prefix).Err? <==> HasLink(entries)
    ensures Collect(entries, prefix).Ok? ==> forall f :: f in Collect(entries, prefix).value <==> Found(entries, prefix, f)
    decreases entries, 1
  {
    if entries == [] {
      forall names, node ensures !Lies(entries, names, node) {}
    } else {
      hide FoundAt, HasLinkAt, Found, HasLink, CollectEntry;
      EntryFinds(entries[0], prefix);
      WalkFinds(entries[1..], prefix);
      LinkCons(entries);
      forall f ensures Found(entries, prefix, f) <==> FoundAt(entries[0], prefix, f) || Found(entries[1..], prefix, f) {
        FoundCons(entries, prefix, f);
      }
    }
  }
}
