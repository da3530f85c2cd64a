/** Chart values and the merge of operator overrides into them. */
module Values {
  import opened Wrappers

  /** A value tree. Everything that is not a map (scalars, lists, null) is an atom. */
  datatype Value = Atom(text: string) | Tree(entries: map<string, Value>)

  type Map = map<string, Value>

  /** `b` merged over `a`. */
  function Merge(a: Map, b: Map): Map
    decreases Tree(b)
  {
    map k | k in a.Keys + b.Keys ::
      if k !in b then a[k]
      else if b[k].Tree? && k in a && a[k].Tree? then Tree(Merge(a[k].entries, b[k].entries))
      else b[k]
  }

  /** The same merge as a loop over the override keys in whatever order they come. */
  method MergeMaps(a: Map, b: Map) returns (out: Map)
    ensures out == Merge(a, b)
    decreases Tree(b)
  {
    out := a;
    var left := b.Keys;
    while left != {}
      invariant left <= b.Keys
      invariant out == map k | k in a.Keys + (b.Keys - left) :: if k in b && k !in left then Merge(a, b)[k] else a[k]
      decreases left
    {
      var k :| k in left;
      left := left - {k};
      var v := b[k];
      if v.Tree? && k in out && out[k].Tree? {
        var merged := MergeMaps(out[k].entries, v.entries);
        out := out[k := Tree(merged)];
      } else {
        out := out[k := v];
      }
    }
  }

  /** The value a path of keys leads to. */
  function At(v: Value, path: seq<string>): Option<Value> {
    if path == [] then Some(v)
    else if v.Tree? && path[0] in v.entries then At(v.entries[path[0]], path[1..])
    else None
  }

  /** An atom lies on the way, so that the path leads nowhere. */
  predicate Blocked(v: Value, path: seq<string>) {
    path != [] && (v.Atom? || (path[0] in v.entries && Blocked(v.entries[path[0]], path[1..])))
  }

  /** Along every path the override wins where it defines something, two maps are merged, a
      map replaces what is no map, an atom hides what was below it, and everything else is
      the original value. */
  lemma {:induction false} MergeAlongPath(a: Map, b: Map, path: seq<string>)
    requires path != []
    ensures At(Tree(Merge(a, b)), path) ==
            match At(Tree(b), path)
            case Some(Atom(text)) => Some(Atom(text))
            case Some(Tree(over)) =>
              (match At(Tree(a), path)
               case Some(Tree(under)) => Some(Tree(Merge(under, over)))
               case _ => Some(Tree(over)))
            case None => if Blocked(Tree(b), path) then None else At(Tree(a), path)
    decreases |path|
  {
    var k, rest := path[0], path[1..];
    if k in b && b[k].Tree? && k in a && a[k].Tree? {
      if rest != [] {
        MergeAlongPath(a[k].entries, b[k].entries, rest);
      }
    }
  }

  /** Merging the same overrides twice is merging them once. */
  lemma {:induction false} MergeIdempotent(a: Map, b: Map)
    ensures Merge(Merge(a, b), b) == Merge(a, b)
    decreases Tree(b)
  {
    var m := Merge(a, b);
    forall k | k in m && k in b && b[k].Tree? ensures Merge(m, b)[k] == m[k] {
      if k in a && a[k].Tree? {
        MergeIdempotent(a[k].entries, b[k].entries);
      } else {
        MergeSelf(b[k].entries);
      }
    }
  }

  lemma {:induction false} MergeSelf(b: Map)
    ensures Merge(b, b) == b
    decreases Tree(b)
  {
    forall k | k in b && b[k].Tree? ensures Merge(b, b)[k] == b[k] {
      MergeSelf(b[k].entries);
    }
  }
}
