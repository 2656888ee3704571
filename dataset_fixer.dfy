/**
 * Type-based selection in dataset_fixer.py: the matching predicates (`flag`) of
 * `folder_unpacker` and `sorter`, the bucket naming of `sorter`, and the two copy
 * loops. The content sniffer `filetype.guess(path).mime` is the parameter
 * `guess`, absent (`None`) when the type cannot be determined.
 */
module DatasetFixer {
  import opened Wrappers
  import opened PyStr
  import opened Walk
  import opened Target
  import opened Destination

  // ---------------------------------------------------------------------------
  // Matching
  // ---------------------------------------------------------------------------

  /** The `for i in y: if file_type == i: return True` scan of a tuple or list filter. */
  function MatchesAny(m: string, items: seq<string>): (b: bool)
    ensures b <==> m in items
  {
    if items == [] then false
    else if m == items[0] then true
    else MatchesAny(m, items[1..])
  }

  /** `folder_unpacker`'s `flag`: any file when the filter is falsy, else the detected type
      must equal the string or one element of the tuple or list. */
  function UnpackFlag(detected: Option<string>, t: TargetType): (b: bool)
    ensures Falsy(t) ==> b
    ensures !Falsy(t) ==> (b <==> detected.Some? && detected.value in Admitted(t))
  {
    if Falsy(t) then true
    else if t.Str? then detected == Some(t.s)
    else detected.Some? && MatchesAny(detected.value, t.values)
  }

  /** `sorter`'s `flag` on a detected type `m`: `True`, `m == y` or `m in y`. */
  function SortFlag(m: string, t: TargetType): (b: bool)
    ensures Falsy(t) ==> b
    ensures !Falsy(t) ==> (b <==> m in Admitted(t))
  {
    if Falsy(t) then true
    else if t.Str? then m == t.s
    else m in t.values
  }

  /** `sorter`'s guard `file_type and flag(file_type, target_type)`. */
  function SortSelects(detected: Option<string>, t: TargetType): (b: bool)
    ensures b ==> UnpackFlag(detected, t)
    ensures b ==> detected.Some? && Bucket(detected.value) != Root
  {
    detected.Some? && detected.value != "" && SortFlag(detected.value, t)
  }

  /** The set of types a constrained filter admits. */
  function Admitted(t: TargetType): set<string>
    requires !Falsy(t)
  {
    if t.Str? then {t.s} else set v | v in t.values
  }

  /** The three cases of the matcher: a falsy filter admits every file, a string or
      container filter exactly the files whose detected type is present and admitted. */
  lemma {:induction false} UnpackFlagCases(detected: Option<string>, t: TargetType)
    ensures Falsy(t) ==> UnpackFlag(detected, t)
    ensures !Falsy(t) ==> (UnpackFlag(detected, t) <==> detected.Some? && detected.value in Admitted(t))
    ensures !Falsy(t) ==> !UnpackFlag(None, t)
  {
    if !Falsy(t) && !t.Str? && detected.Some? {
      assert MatchesAny(detected.value, t.values) <==> detected.value in t.values;
    }
  }

  /** On a present, non-empty type the two `flag`s of the module agree, so `sorter` picks
      exactly the files `folder_unpacker` picks, less those of unknown type. */
  lemma {:induction false} FlagsAgree(detected: Option<string>, t: TargetType)
    ensures SortSelects(detected, t) <==> detected.Some? && detected.value != "" && UnpackFlag(detected, t)
  {
    if detected.Some? && !Falsy(t) && !t.Str? {
      assert MatchesAny(detected.value, t.values) <==> detected.value in t.values;
    }
  }

  // ---------------------------------------------------------------------------
  // Bucket naming
  // ---------------------------------------------------------------------------

  /** `file_type.replace('/', '_')`: the bucket folder of a type. */
  function Bucket(m: string): (b: string)
    ensures |b| == |m| && '/' !in b
    ensures forall i :: 0 <= i < |m| ==> b[i] == (if m[i] == '/' then '_' else m[i])
    ensures m != "" ==> b != Root
  {
    ReplaceChar(m, '/', '_')
  }

  /** Bucket names are not injective: a type with `_` in place of `/` shares the folder. */
  lemma BucketsCollide()
    ensures Bucket("a/b") == Bucket("a_b")
  {
    var x, y := Bucket("a/b"), Bucket("a_b");
    assert x[0] == y[0] && x[1] == y[1] && x[2] == y[2];
  }

  // ---------------------------------------------------------------------------
  // folder_unpacker
  // ---------------------------------------------------------------------------

  /** The walked files `folder_unpacker` copies. */
  function UnpackSel(guess: Entry -> Option<string>, t: TargetType): Entry -> bool {
    e => UnpackFlag(guess(e), t)
  }

  /** `folder_unpacker(current_root, new_root, target_type)` over the walk `walk`: every file
      the flag admits is copied flat into `new_root`, in walk order; nothing else changes. */
  method FolderUnpacker(d: Destination, walk: seq<Entry>, guess: Entry -> Option<string>, t: TargetType)
    requires d.Valid()
    modifies d
    ensures d.Valid() && d.folders == old(d.folders)
    ensures d.Copied(Root) == old(d.Copied(Root)) + Selected(walk, UnpackSel(guess, t))
    ensures forall f :: f != Root ==> d.Copied(f) == old(d.Copied(f))
  {
    var i := 0;
    while i < |walk|
      invariant 0 <= i <= |walk|
      invariant d.Valid() && d.folders == old(d.folders)
      invariant d.Copied(Root) == old(d.Copied(Root)) + Selected(walk[..i], UnpackSel(guess, t))
      invariant forall f :: f != Root ==> d.Copied(f) == old(d.Copied(f))
    {
      var e := walk[i];
      assert walk[..i + 1][..i] == walk[..i];
      if UnpackFlag(guess(e), t) {
        d.Copy(e.name, Root);
      }
      i := i + 1;
    }
    assert walk[..|walk|] == walk;
  }

  /** With a falsy filter every walked file is copied, however deep it was nested. */
  lemma UnpackEverythingWhenFalsy(walk: seq<Entry>, guess: Entry -> Option<string>, t: TargetType)
    requires Falsy(t)
    ensures Selected(walk, UnpackSel(guess, t)) == Names(walk)
  {
    SelectedAll(walk, UnpackSel(guess, t));
  }

  /** With a constrained filter a name is copied iff some walked file of that name has a
      detected type the filter admits. */
  lemma UnpackConstrained(walk: seq<Entry>, guess: Entry -> Option<string>, t: TargetType, x: string)
    requires !Falsy(t)
    ensures x in Selected(walk, UnpackSel(guess, t)) <==>
            exists i :: 0 <= i < |walk| && walk[i].name == x && guess(walk[i]).Some? && guess(walk[i]).value in Admitted(t)
  {
    SelectedIff(walk, UnpackSel(guess, t), x);
    forall i | 0 <= i < |walk| {
      UnpackFlagCases(guess(walk[i]), t);
    }
  }

  // ---------------------------------------------------------------------------
  // sorter
  // ---------------------------------------------------------------------------

  /** `sorter` copies walked file `e` into bucket `b`. */
  predicate SortsInto(isFile: Entry -> bool, guess: Entry -> Option<string>, t: TargetType, e: Entry, b: string) {
    isFile(e) && SortSelects(guess(e), t) && Bucket(guess(e).value) == b
  }

  /** The names `sorter` copies into bucket `b`, in walk order. */
  function Sorted(walk: seq<Entry>, isFile: Entry -> bool, guess: Entry -> Option<string>, t: TargetType, b: string): (r: seq<string>)
    ensures |r| <= |walk|
    ensures b == Root || '/' in b ==> r == []
  {
    if walk == [] then []
    else
      var e := walk[|walk| - 1];
      Sorted(walk[..|walk| - 1], isFile, guess, t, b) + (if SortsInto(isFile, guess, t, e, b) then [e.name] else [])
  }

  /** A name is copied into bucket `b` exactly when some walked regular file of that name
      has a present, admitted type whose bucket is `b`. */
  lemma {:induction false} SortedIff(walk: seq<Entry>, isFile: Entry -> bool, guess: Entry -> Option<string>, t: TargetType, b: string, x: string)
    ensures x in Sorted(walk, isFile, guess, t, b) <==> exists i :: 0 <= i < |walk| && walk[i].name == x && SortsInto(isFile, guess, t, walk[i], b)
  {
    if walk != [] {
      var w := walk[..|walk| - 1];
      SortedIff(w, isFile, guess, t, b, x);
      assert forall i :: 0 <= i < |w| ==> w[i] == walk[i];
    }
  }

  /** The buckets `sorter` needs for the walk. */
  function Buckets(walk: seq<Entry>, isFile: Entry -> bool, guess: Entry -> Option<string>, t: TargetType): (s: set<string>)
    ensures forall b :: b in s ==> b != Root && '/' !in b
  {
    if walk == [] then {}
    else
      var e := walk[|walk| - 1];
      Buckets(walk[..|walk| - 1], isFile, guess, t)
        + (if isFile(e) && SortSelects(guess(e), t) then {Bucket(guess(e).value)} else {})
  }

  /** A bucket is needed exactly when some file is sorted into it, and no bucket name has
      a `/` in it or names `new_root` itself. */
  lemma {:induction false} BucketsIff(walk: seq<Entry>, isFile: Entry -> bool, guess: Entry -> Option<string>, t: TargetType, b: string)
    ensures b in Buckets(walk, isFile, guess, t) <==> Sorted(walk, isFile, guess, t, b) != []
    ensures b in Buckets(walk, isFile, guess, t) ==> '/' !in b && b != Root
  {
    if walk != [] {
      BucketsIff(walk[..|walk| - 1], isFile, guess, t, b);
    }
  }

  /** One more walked file adds at most its own bucket, and its own name to that bucket. */
  lemma SortStep(walk: seq<Entry>, i: nat, isFile: Entry -> bool, guess: Entry -> Option<string>, t: TargetType)
    requires i < |walk|
    ensures var e := walk[i];
      Buckets(walk[..i + 1], isFile, guess, t)
      == Buckets(walk[..i], isFile, guess, t) + (if isFile(e) && SortSelects(guess(e), t) then {Bucket(guess(e).value)} else {})
    ensures forall b :: Sorted(walk[..i + 1], isFile, guess, t, b)
                        == Sorted(walk[..i], isFile, guess, t, b) + (if SortsInto(isFile, guess, t, walk[i], b) then [walk[i].name] else [])
  {
    assert walk[..i + 1][..i] == walk[..i];
  }


  /** The body of `sorter`'s loop for one walked file `e`: check that it is a regular file,
      sniff its type, and if the type is present and admitted make its bucket unless it
      exists, then copy the file there. */
  method SortOne(d: Destination, e: Entry, isFile: Entry -> bool, guess: Entry -> Option<string>, t: TargetType)
    requires d.Valid()
    modifies d
    ensures d.Valid()
    ensures d.folders == old(d.folders) + (if isFile(e) && SortSelects(guess(e), t) then {Bucket(guess(e).value)} else {})
    ensures forall b :: d.Copied(b) == old(d.Copied(b)) + (if SortsInto(isFile, guess, t, e, b) then [e.name] else [])
  {
    if isFile(e) {
      var fileType := guess(e);
      if fileType.Some? && fileType.value != "" && SortFlag(fileType.value, t) {
        var bucket := Bucket(fileType.value);
        var present := d.Exists(bucket);
        if !present {
          d.MakeDir(bucket);
        }
        d.Copy(e.name, bucket);
      }
    }
  }

  /** One turn of `sorter`'s loop, stated against the whole walk so far: the walk up to and
      including file `i` is sorted once the walk before it was. */
  method SortNext(d: Destination, walk: seq<Entry>, i: nat, isFile: Entry -> bool, guess: Entry -> Option<string>, t: TargetType,
                  ghost folders0: set<string>, ghost before: map<string, seq<string>>)
    requires i < |walk| && d.Valid()
    requires d.folders == folders0 + Buckets(walk[..i], isFile, guess, t)
    requires forall b :: Lookup(d.copies, b) == Lookup(before, b) + Sorted(walk[..i], isFile, guess, t, b)
    modifies d
    ensures d.Valid()
    ensures d.folders == folders0 + Buckets(walk[..i + 1], isFile, guess, t)
    ensures forall b :: Lookup(d.copies, b) == Lookup(before, b) + Sorted(walk[..i + 1], isFile, guess, t, b)
  {
    SortStep(walk, i, isFile, guess, t);
    SortOne(d, walk[i], isFile, guess, t);
    forall b
      ensures Lookup(d.copies, b) == Lookup(before, b) + Sorted(walk[..i + 1], isFile, guess, t, b)
    {
      var added := if SortsInto(isFile, guess, t, walk[i], b) then [walk[i].name] else [];
      assert Lookup(d.copies, b) == d.Copied(b) == old(d.Copied(b)) + added;
      assert (Lookup(before, b) + Sorted(walk[..i], isFile, guess, t, b)) + added
          == Lookup(before, b) + (Sorted(walk[..i], isFile, guess, t, b) + added);
    }
  }

  /** `sorter(current_root, new_root, target_type)` over the walk `walk`: every regular file
      whose type is present and admitted is copied into the bucket of its type; a bucket is
      made the first time it is needed and never again (`os.mkdir` would raise). */
  method Sort(d: Destination, walk: seq<Entry>, isFile: Entry -> bool, guess: Entry -> Option<string>, t: TargetType)
    requires d.Valid()
    modifies d
    ensures d.Valid()
    ensures d.folders == old(d.folders) + Buckets(walk, isFile, guess, t)
    ensures forall b :: d.Copied(b) == old(d.Copied(b)) + Sorted(walk, isFile, guess, t, b)
  {
    ghost var before := d.copies;
    assert walk[..0] == [];
    var i := 0;
    while i < |walk|
      invariant 0 <= i <= |walk|
      invariant d.Valid()
      invariant d.folders == old(d.folders) + Buckets(walk[..i], isFile, guess, t)
      invariant forall b :: Lookup(d.copies, b) == Lookup(before, b) + Sorted(walk[..i], isFile, guess, t, b)
    {
      SortNext(d, walk, i, isFile, guess, t, old(d.folders), before);
      i := i + 1;
    }
    assert walk[..|walk|] == walk;
  }

  /** Sorting the same walk twice into the same destination does not fail the second time:
      no bucket is made again, and every sorted file is copied once per run. */
  method SortTwice(d: Destination, walk: seq<Entry>, isFile: Entry -> bool, guess: Entry -> Option<string>, t: TargetType)
    requires d.Valid()
    modifies d
    ensures d.Valid()
    ensures d.folders == old(d.folders) + Buckets(walk, isFile, guess, t)
    ensures forall b :: d.Copied(b) == old(d.Copied(b)) + Sorted(walk, isFile, guess, t, b) + Sorted(walk, isFile, guess, t, b)
  {
    Sort(d, walk, isFile, guess, t);
    ghost var afterFirst := d.folders;
    Sort(d, walk, isFile, guess, t);
    assert d.folders == afterFirst;
  }
}
