/** The names of registered objects: when they are told apart.
 */
module RegistryNames {
  import opened Options
  import opened ExtensionRegistry

  /** All parts of the snapshot are about the same objects, parents included. */
  ghost predicate IsWhole(now: Snapshot) {
    && now.keys.Keys == now.parents.Keys && now.taken.Keys == now.parents.Keys && now.definitions.Keys == now.parents.Keys
    && now.names.Keys == now.parents.Keys && now.registered <= now.parents.Keys && IsClosed(now.parents)
  }

  lemma NowIsWhole(all: set<ExtensionObject>)
    requires Linked(all)
    ensures IsWhole(Now(all)) && Now(all).parents.Keys == all
  {
  }

  /** Attached objects are, or will be, named by the key under which their parent holds them. */
  ghost predicate KeyedNames(now: Snapshot)
    requires IsWhole(now)
  {
    forall o :: o in now.parents && now.parents[o] != null ==>
      if o in now.registered then now.names[o].own == now.keys[o] else now.definitions[o] == Some(now.keys[o])
  }

  ghost predicate DotFree(name: string) {
    '.' !in name
  }

  /** No definition has a name with a dot, and no attached object is registered under one. */
  ghost predicate DotFreeNames(now: Snapshot)
    requires IsWhole(now)
  {
    && (forall o :: o in now.definitions && now.definitions[o].Some? ==> DotFree(now.definitions[o].value))
    && forall o :: o in now.parents && now.parents[o] != null && o in now.registered ==> DotFree(now.names[o].own)
  }

  /** No two registered objects with the same parent have the same name. */
  ghost predicate SiblingsDiffer(all: set<ExtensionObject>)
    reads all`parent, all`registered, all`name
  {
    forall a, b :: a in all && b in all && a.registered && b.registered ==>
      (a.parent != null && a.parent == b.parent && a.name == b.name ==> a == b)
  }

  /** Two registered objects have the same root and the same qualified name. */
  ghost predicate SharesName(a: ExtensionObject, b: ExtensionObject, all: set<ExtensionObject>)
    requires a in all && b in all && Described(all)
    reads all`parent, all`registered, all`depth, all`name, all`qualifiedName
  {
    a.registered && b.registered && RootOf(a, all) == RootOf(b, all) && a.qualifiedName == b.qualifiedName
  }

  /** No two registered objects under one root share a qualified name. */
  ghost predicate HasDistinctNames(all: set<ExtensionObject>)
    requires Described(all)
    reads all`parent, all`registered, all`depth, all`name, all`qualifiedName
  {
    forall a, b :: a in all && b in all && SharesName(a, b, all) ==> a == b
  }

  /** A dotted name splits in only one way at its last dot. */
  lemma LastDotSplits(p: string, x: string, q: string, y: string)
    requires DotFree(x) && DotFree(y) && p + "." + x == q + "." + y
    ensures p == q && x == y
  {
    var s := p + "." + x;
    assert s[|p|] == '.' && s[|q|] == '.';
    assert forall i :: |p| < i < |s| ==> s[i] == x[i - |p| - 1];
    assert forall i :: |q| < i < |s| ==> s[i] == y[i - |q| - 1];
    assert p == s[..|p|] && q == s[..|q|];
    assert x == s[|p| + 1..] && y == s[|q| + 1..];
  }

  /** The root of a registered object. */
  ghost function RootOf(o: ExtensionObject, all: set<ExtensionObject>): ExtensionObject
    requires o in all && o.registered && Described(all)
    reads all`parent, all`registered, all`depth, all`name, all`qualifiedName
    decreases o.depth
  {
    if o.parent == null then o else RootOf(o.parent, all)
  }

  /** Below its root an object's qualified name only gets longer. */
  lemma {:induction false} QualifiedNameExtendsRoot(o: ExtensionObject, all: set<ExtensionObject>)
    requires o in all && o.registered && Described(all)
    ensures |RootOf(o, all).qualifiedName| + o.depth <= |o.qualifiedName|
    decreases o.depth
  {
    if o.parent != null {
      QualifiedNameExtendsRoot(o.parent, all);
    }
  }

  /** With dot-free names, objects that share a qualified name are the same if siblings that share a name are. */
  lemma {:induction false} QualifiedNamesAreDistinct(a: ExtensionObject, b: ExtensionObject, all: set<ExtensionObject>)
    requires Described(all) && SiblingsDiffer(all)
    requires forall o :: o in all && o.registered && o.parent != null ==> DotFree(o.name)
    requires a in all && b in all && SharesName(a, b, all)
    ensures a == b
    decreases a.depth
  {
    QualifiedNameExtendsRoot(a, all);
    QualifiedNameExtendsRoot(b, all);
    if a.parent != null && b.parent != null {
      LastDotSplits(a.parent.qualifiedName, a.name, b.parent.qualifiedName, b.name);
      QualifiedNamesAreDistinct(a.parent, b.parent, all);
    }
  }

  /** With dot-free names, the qualified names under every root are distinct exactly when siblings have different names. */
  lemma NamesAreDistinctIff(all: set<ExtensionObject>)
    requires Linked(all) && Described(all) && IsWhole(Now(all)) && DotFreeNames(Now(all))
    ensures HasDistinctNames(all) <==> SiblingsDiffer(all)
  {
    forall o | o in all && o.registered && o.parent != null ensures DotFree(o.name) {
      ObjectShows(o, all);
    }
    if SiblingsDiffer(all) {
      forall a, b | a in all && b in all && SharesName(a, b, all) ensures a == b {
        QualifiedNamesAreDistinct(a, b, all);
      }
    }
    if HasDistinctNames(all) {
      forall a, b | a in all && b in all && a.registered && b.registered && a.parent != null && a.parent == b.parent && a.name == b.name
        ensures a == b
      {
        assert SharesName(a, b, all);
      }
    }
  }

  /** Siblings have different keys, so names that follow the keys differ too. */
  lemma KeyedSiblingsDiffer(all: set<ExtensionObject>)
    requires Linked(all) && IsWhole(Now(all)) && KeyedNames(Now(all))
    ensures SiblingsDiffer(all)
  {
    forall a, b | a in all && b in all && a.registered && b.registered && a.parent != null && a.parent == b.parent && a.name == b.name
      ensures a == b
    {
      ObjectShows(a, all);
      ObjectShows(b, all);
      assert a.parent.children[a.key] == a && a.parent.children[b.key] == b;
    }
  }
}
