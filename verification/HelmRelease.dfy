/** The nested maps of a live Helm release, changed in place. */
module HelmRelease {
  import opened Text
  import opened HelmValues

  datatype Entry = Text(text: string) | Foreign(id: int) | Sub(dir: Dir)

  /** One map; the maps below it belong to it alone. */
  class Dir {
    var entries: map<string, Entry>
    ghost var repr: set<Dir>

    ghost predicate Valid()
      reads this, repr
      ensures Valid() ==> this in repr
      decreases repr
    {
      && this in repr
      && (forall k | k in entries && entries[k].Sub? ::
            && entries[k].dir in repr && entries[k].dir.repr < repr && this !in entries[k].dir.repr
            && entries[k].dir.Valid())
      && (forall j, k | j in entries && k in entries && j != k && entries[j].Sub? && entries[k].Sub? ::
            entries[j].dir.repr !! entries[k].dir.repr)
    }

    /** The values this map and those below it hold. */
    ghost function Tree(): Values
      requires Valid()
      reads this, repr
      decreases repr
    {
      map k | k in entries ::
        match entries[k]
        case Text(text) => Str(text)
        case Foreign(id) => Other(id)
        case Sub(dir) => Node(dir.Tree())
    }

    constructor ()
      ensures Valid() && fresh(repr) && Tree() == map[]
    {
      entries := map[];
      repr := {this};
    }

    method SetLeaf(key: string, value: string) returns (changed: bool)
      requires Valid()
      modifies this`entries
      ensures Valid() && Tree() == old(Tree())[key := Str(value)]
      ensures changed <==> Tree() != old(Tree())
    {
      ghost var was := Tree();
      changed := !(key in entries && entries[key] == Text(value));
      if changed { entries := entries[key := Text(value)]; }
      assert !changed ==> Tree()[key] == Str(value);
      assert changed ==> key !in was || was[key] != Str(value);
    }

    /** The map under a key, made when there is none. */
    method Child(key: string) returns (next: Dir)
      requires Valid()
      modifies this
      ensures Valid() && old(repr) <= repr && fresh(repr - old(repr))
      ensures key in entries && entries[key] == Sub(next)
      ensures next.Valid() && next.repr <= repr && this !in next.repr && next.Tree() == Below(old(Tree()), key)
      ensures Tree() == old(Tree())[key := Node(Below(old(Tree()), key))]
    {
      ghost var was := Tree();
      if key in entries && entries[key].Sub? {
        next := entries[key].dir;
        assert was[key] == Node(next.Tree());
      } else {
        next := new Dir();
        entries := entries[key := Sub(next)];
        repr := repr + next.repr;
        assert Below(was, key) == map[];
      }
    }

    /** Walks down the path, making maps where there are none, and writes the value. */
    method SetNested(path: seq<string>, value: string) returns (changed: bool)
      requires Valid() && path != []
      modifies repr
      ensures Valid() && fresh(repr - old(repr)) && old(repr) <= repr
      ensures Tree() == SetIn(old(Tree()), path, value)
      ensures changed <==> Tree() != old(Tree())
      decreases |path|
    {
      hide Valid, Tree, Get, Below, Agrees;
      ghost var was := Tree();
      var key, rest := path[0], path[1..];
      if rest == [] {
        changed := SetLeaf(key, value);
        return;
      }
      var next := Child(key);
      label Below:
      ghost var kept := Tree();
      changed := next.SetNested(rest, value);
      repr := repr + next.repr;
      assert Valid() && Tree() == kept[key := Node(next.Tree())] by { Rejoined@Below(key); }
      FlagBelow(was, path, value);
    }

    /** A map stays sound when one map below it was changed on its own ground. */
    twostate lemma Rejoined(key: string)
      requires old(Valid()) && key in old(entries) && old(entries)[key].Sub?
      requires var next := old(entries)[key].dir;
        && entries == old(entries)
        && next.Valid() && old(next.repr) <= next.repr && fresh(next.repr - old(next.repr))
        && repr == old(repr) + next.repr
        && (forall d: Dir | old(allocated(d)) && d != this && d !in old(next.repr) :: unchanged(d))
      ensures Valid()
      ensures Tree() == old(Tree())[key := Node(old(entries)[key].dir.Tree())]
    {
      var next := entries[key].dir;
      forall k | k in entries && k != key && entries[k].Sub?
        ensures entries[k].dir.repr == old(entries[k].dir.repr) && entries[k].dir.Valid()
        ensures entries[k].dir.Tree() == old(entries[k].dir.Tree())
        ensures entries[k].dir.repr !! next.repr
      {
        assert old(entries[k].dir.Valid());
      }
    }
  }

  /** Writes every patch into the release's values, in the order given, and strips the
      references it takes further values from; reports whether there was anything to do. */
  method EnsureValues(values: Dir, valuesFrom: seq<string>, order: seq<string>, patches: Patches)
    returns (modified: bool, left: seq<string>)
    requires values.Valid() && Orders(order, patches)
    modifies values.repr
    ensures values.Valid()
    ensures values.Tree() == Apply(old(values.Tree()), order, patches)
    ensures left == []
    ensures !modified <==> !Modified(old(values.Tree()), order, patches) && left == valuesFrom
  {
    hide Orders, Apply, Modified, PathOf;
    modified, left := false, valuesFrom;
    ghost var was := values.Tree();
    OrdersNames(order, patches);
    NothingApplied(was, patches);
    for i := 0 to |order|
      invariant values.Valid() && fresh(values.repr - old(values.repr))
      invariant values.Tree() == Apply(was, order[..i], patches)
      invariant modified == Modified(was, order[..i], patches)
    {
      OneMore(was, order, patches, i);
      var changed := values.SetNested(PathOf(order[i]), patches[order[i]]);
      if changed { modified := true; }
    }
    assert order[..|order|] == order;
    if |left| > 0 { modified, left := true, []; }
  }

  lemma OrdersNames(order: seq<string>, patches: Patches)
    requires Orders(order, patches)
    ensures forall k | k in order :: k in patches
  {
  }

  lemma NothingApplied(t: Values, patches: Patches)
    ensures Apply(t, [], patches) == t && !Modified(t, [], patches)
  {
  }

  lemma OneMore(t: Values, order: seq<string>, patches: Patches, i: nat)
    requires (forall k | k in order :: k in patches) && i < |order|
    ensures var before := Apply(t, order[..i], patches);
      && Apply(t, order[..i + 1], patches) == SetIn(before, PathOf(order[i]), patches[order[i]])
      && (Modified(t, order[..i + 1], patches) <==>
            Modified(t, order[..i], patches) || SetIn(before, PathOf(order[i]), patches[order[i]]) != before)
  {
    assert order[..i + 1][..i] == order[..i];
  }

  lemma FlagBelow(was: Values, path: seq<string>, value: string)
    requires |path| > 1
    ensures SetIn(Below(was, path[0]), path[1..], value) != Below(was, path[0]) <==> SetIn(was, path, value) != was
  {
    SetChangesExactly(was, path, value);
    SetChangesExactly(Below(was, path[0]), path[1..], value);
    EmptyHasNothing(path[1..]);
  }
}
