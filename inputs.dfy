/**
 * What a directory walk yields: one entry per file, the directory it was found
 * in and its bare name. The walk itself is not modelled; operations receive the
 * entries in walk order.
 */
module Walk {

  /** A file yielded by the walk: `os.path.join(root, name)` is its path. */
  datatype Entry = Entry(root: string, name: string)

  /** The bare names of the walked files, in walk order. */
  function Names(walk: seq<Entry>): (r: seq<string>)
    ensures |r| == |walk|
    ensures forall i :: 0 <= i < |walk| ==> r[i] == walk[i].name
  {
    if walk == [] then [] else Names(walk[..|walk| - 1]) + [walk[|walk| - 1].name]
  }

  /** The names of the walked files `sel` picks, in walk order: what a copy loop over the walk copies. */
  function Selected(walk: seq<Entry>, sel: Entry -> bool): (r: seq<string>)
    ensures |r| <= |walk|
    ensures forall x :: x in r ==> x in Names(walk)
  {
    if walk == [] then []
    else Selected(walk[..|walk| - 1], sel) + (if sel(walk[|walk| - 1]) then [walk[|walk| - 1].name] else [])
  }

  /** One more walked file adds its own name when `sel` picks it, and nothing otherwise. */
  lemma SelectedStep(walk: seq<Entry>, i: nat, sel: Entry -> bool)
    requires i < |walk|
    ensures Selected(walk[..i + 1], sel) == Selected(walk[..i], sel) + (if sel(walk[i]) then [walk[i].name] else [])
  {
    assert walk[..i + 1][..i] == walk[..i];
  }

  /** A selector that picks every file copies every name, in walk order. */
  lemma {:induction false} SelectedAll(walk: seq<Entry>, sel: Entry -> bool)
    requires forall i :: 0 <= i < |walk| ==> sel(walk[i])
    ensures Selected(walk, sel) == Names(walk)
  {
    if walk != [] {
      SelectedAll(walk[..|walk| - 1], sel);
    }
  }

  /** A name is copied exactly when some walked file with that name is picked. */
  lemma {:induction false} SelectedIff(walk: seq<Entry>, sel: Entry -> bool, x: string)
    ensures x in Selected(walk, sel) <==> exists i :: 0 <= i < |walk| && walk[i].name == x && sel(walk[i])
  {
    if walk != [] {
      var w := walk[..|walk| - 1];
      SelectedIff(w, sel, x);
      assert forall i :: 0 <= i < |w| ==> w[i] == walk[i];
    }
  }

  /** Each picked file is copied once and every other file not at all: the counts add up. */
  lemma {:induction false} SelectedLength(walk: seq<Entry>, sel: Entry -> bool)
    ensures |Selected(walk, sel)| <= |walk|
    ensures |Selected(walk, sel)| == |walk| <==> forall i :: 0 <= i < |walk| ==> sel(walk[i])
  {
    if walk != [] {
      var w := walk[..|walk| - 1];
      SelectedLength(w, sel);
      assert forall i :: 0 <= i < |w| ==> w[i] == walk[i];
    }
  }
}

/**
 * The `target_type` argument of the extractors and the sorter: `None`, a string,
 * or a tuple or list of strings.
 */
module Target {

  datatype Container = Tuple | List

  datatype TargetType =
    | NoFilter                                     // `None`, the default
    | Str(s: string)                               // a single type
    | Items(kind: Container, values: seq<string>)  // several types

  /** Python truthiness of the filter: `None`, `""`, `()` and `[]` are false. */
  predicate Falsy(t: TargetType) {
    match t
    case NoFilter => true
    case Str(s) => s == ""
    case Items(_, vs) => vs == []
  }

  /** `len(target_type)` of a string or container filter. */
  function Length(t: TargetType): nat
    requires !t.NoFilter?
  {
    if t.Str? then |t.s| else |t.values|
  }
}
