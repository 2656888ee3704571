/**
 * main_module.py: the older `folder_unpacker`, which picks files by a substring
 * test on the lower-cased file name instead of asking a type classifier. With a
 * filter it looks for `'.' + str(item)` in `file.lower()`: for a filter of length
 * greater than one it tries each item in turn and copies the file at the first
 * hit; for a filter of length one it looks for `'.' + str(target_type)`. Without
 * a filter it copies every file.
 */
module MainModule {
  import opened PyStr
  import opened Walk
  import opened Target
  import opened Destination

  /** What `for item in target_type` visits: the one-character strings of a string
      filter, the elements of a tuple or list. */
  function Members(t: TargetType): (m: seq<string>)
    requires !t.NoFilter?
    ensures |m| == Length(t)
  {
    if t.Str? then seq(|t.s|, i requires 0 <= i < |t.s| => [t.s[i]]) else t.values
  }

  /** Iterating a string visits one-character strings, one for each of its characters. */
  lemma StringMembers(s: string, x: string)
    ensures x in Members(Str(s)) <==> |x| == 1 && x[0] in s
  {
    if |x| == 1 && x[0] in s {
      var i :| 0 <= i < |s| && s[i] == x[0];
      assert Members(Str(s))[i] == x;
    }
  }

  /** `str(target_type)` for a filter of length one: the string itself, or the printed
      form of a one-element tuple `('x',)` or list `['x']`. */
  function StrOfSingle(t: TargetType): (s: string)
    requires !t.NoFilter? && Length(t) == 1
    ensures t.Str? ==> s == t.s
    ensures t.Items? ==> |s| >= 4 && s[1] == ReprQuote(t.values[0])
    ensures t.Items? && t.kind.Tuple? ==> s[0] == '(' && s[|s| - 2..] == ",)"
    ensures t.Items? && t.kind.List? ==> s[0] == '[' && s[|s| - 1] == ']'
  {
    match t
    case Str(s) => s
    case Items(Tuple, vs) => "(" + StrRepr(vs[0]) + ",)"
    case Items(List, vs) => "[" + StrRepr(vs[0]) + "]"
  }

  /** Lines 31 and 42: the file name, lower-cased, contains `'.' + item`. */
  function HasType(name: string, item: string): (b: bool)
    ensures b ==> '.' in name
  {
    var found := Contains(Lower(name), "." + item);
    if found then
      ContainsCharacter(Lower(name), "." + item, 0);
      DotSurvivesLower(name);
      found
    else
      found
  }

  /** Lower-casing turns no other character into a `.`. */
  lemma DotSurvivesLower(name: string)
    requires '.' in Lower(name)
    ensures '.' in name
  {
    var i :| 0 <= i < |Lower(name)| && Lower(name)[i] == '.';
    assert LowerChar(name[i]) == '.';
  }

  /** Whether `folder_unpacker` copies a file named `name` under the filter `t`: every
      file without a filter; with one, only names that contain a `.`. */
  function Picks(t: TargetType, name: string): (b: bool)
    ensures Falsy(t) ==> b
    ensures b && !Falsy(t) ==> '.' in name
  {
    if Falsy(t) then true
    else if Length(t) > 1 then exists k :: 0 <= k < Length(t) && HasType(name, Members(t)[k])
    else HasType(name, StrOfSingle(t))
  }

  function PickSel(t: TargetType): Entry -> bool {
    (e: Entry) => Picks(t, e.name)
  }

  /** Lines 29-33 for one file: try each item in turn and copy at the first hit, so the
      file is copied once when some item matches and not at all otherwise. */
  method CopyIfAnyMatches(d: Destination, file: string, items: seq<string>)
    requires d.Valid()
    modifies d
    ensures d.Valid() && d.folders == old(d.folders)
    ensures Lookup(d.copies, Root) ==
              Lookup(old(d.copies), Root)
              + (if exists k :: 0 <= k < |items| && HasType(file, items[k]) then [file] else [])
    ensures forall f :: f != Root ==> Lookup(d.copies, f) == Lookup(old(d.copies), f)
  {
    var j := 0;
    while j < |items|
      invariant 0 <= j <= |items|
      invariant forall k :: 0 <= k < j ==> !HasType(file, items[k])
      invariant d.copies == old(d.copies) && d.folders == old(d.folders)
    {
      if HasType(file, items[j]) {
        d.Copy(file, Root);
        return;
      }
      // The call `folder_unpacker(file, new_root, target_type)` of line 36 is not modelled.
      j := j + 1;
    }
  }

  /** `folder_unpacker(current_root, new_root, target_type)`: the files of the walk that
      `Picks` admits are copied into `new_root`, in walk order, each at most once. */
  method FolderUnpacker(d: Destination, walk: seq<Entry>, t: TargetType)
    requires d.Valid()
    modifies d
    ensures d.Valid() && d.folders == old(d.folders)
    ensures d.Copied(Root) == old(d.Copied(Root)) + Selected(walk, PickSel(t))
    ensures forall f :: f != Root ==> d.Copied(f) == old(d.Copied(f))
  {
    ghost var before := d.copies;
    var i := 0;
    while i < |walk|
      invariant 0 <= i <= |walk|
      invariant d.Valid() && d.folders == old(d.folders)
      invariant Lookup(d.copies, Root) == Lookup(before, Root) + Selected(walk[..i], PickSel(t))
      invariant forall f :: f != Root ==> Lookup(d.copies, f) == Lookup(before, f)
    {
      UnpackNext(d, walk, i, t, before);
      i := i + 1;
    }
    assert walk[..|walk|] == walk;
  }

  /** One turn of the walk loop, stated against the whole walk so far: the walk up to and
      including file `i` is extracted once the walk before it was. */
  method UnpackNext(d: Destination, walk: seq<Entry>, i: nat, t: TargetType, ghost before: map<string, seq<string>>)
    requires i < |walk| && d.Valid()
    requires Lookup(d.copies, Root) == Lookup(before, Root) + Selected(walk[..i], PickSel(t))
    requires forall f :: f != Root ==> Lookup(d.copies, f) == Lookup(before, f)
    modifies d
    ensures d.Valid() && d.folders == old(d.folders)
    ensures Lookup(d.copies, Root) == Lookup(before, Root) + Selected(walk[..i + 1], PickSel(t))
    ensures forall f :: f != Root ==> Lookup(d.copies, f) == Lookup(before, f)
  {
    var file := walk[i].name;
    SelectedStep(walk, i, PickSel(t));
    UnpackOne(d, file, t);
    ghost var done, added := Selected(walk[..i], PickSel(t)), if Picks(t, file) then [file] else [];
    assert (Lookup(before, Root) + done) + added == Lookup(before, Root) + (done + added);
  }

  /** The body of the three loops of `folder_unpacker` for one file: the branch taken does
      not depend on the file, so the model tests `target_type` once per file. */
  method UnpackOne(d: Destination, file: string, t: TargetType)
    requires d.Valid()
    modifies d
    ensures d.Valid() && d.folders == old(d.folders)
    ensures Lookup(d.copies, Root) == Lookup(old(d.copies), Root) + (if Picks(t, file) then [file] else [])
    ensures forall f :: f != Root ==> Lookup(d.copies, f) == Lookup(old(d.copies), f)
  {
    if !Falsy(t) {
      if Length(t) > 1 {
        // A filter of several items: the first matching item copies the file.
        CopyIfAnyMatches(d, file, Members(t));
      } else {
        // A filter of one item, looked up through `str(target_type)`.
        if HasType(file, StrOfSingle(t)) {
          d.Copy(file, Root);
        }
        // The call `folder_unpacker(file, new_root, target_type)` of line 46 is not modelled.
      }
    } else {
      // No filter: every file is copied.
      d.Copy(file, Root);
    }
  }

  // ---------------------------------------------------------------------------
  // Properties of the substring test
  // ---------------------------------------------------------------------------

  /** A needle with a character missing from the text never occurs in it. */
  lemma AbsentCharacter(hay: string, needle: string, k: nat)
    requires k < |needle| && needle[k] !in hay
    ensures !Contains(hay, needle)
  {
    if Contains(hay, needle) {
      ContainsCharacter(hay, needle, k);
    }
  }

  /** Only the file name is lower-cased: an item with an ASCII capital never matches,
      whatever the file is called. */
  lemma CapitalNeverMatches(name: string, item: string, k: nat)
    requires k < |item| && IsUpper(item[k])
    ensures !HasType(name, item)
  {
    LowerIdempotent(name);
    var needle := "." + item;
    assert needle[k + 1] == item[k];
    AbsentCharacter(Lower(name), needle, k + 1);
  }

  /** With several types, a filter in which every item has a capital copies nothing. */
  lemma CapitalFilterPicksNothing(t: TargetType, name: string)
    requires !Falsy(t) && Length(t) > 1
    requires forall k :: 0 <= k < Length(t) ==> exists c :: 0 <= c < |Members(t)[k]| && IsUpper(Members(t)[k][c])
    ensures !Picks(t, name)
  {
    forall k | 0 <= k < Length(t)
      ensures !HasType(name, Members(t)[k])
    {
      var c :| 0 <= c < |Members(t)[k]| && IsUpper(Members(t)[k][c]);
      CapitalNeverMatches(name, Members(t)[k], c);
    }
  }

  /** A name with no capitals is its own lower-cased form. */
  lemma LowerOfLowercase(s: string)
    requires forall i :: 0 <= i < |s| ==> !IsUpper(s[i])
    ensures Lower(s) == s
  {
  }

  /** Lower-casing introduces no character other than a small letter. */
  lemma LowerKeepsAbsent(s: string, c: char)
    requires c !in s && !('a' <= c <= 'z')
    ensures c !in Lower(s)
  {
    var l := Lower(s);
    forall i | 0 <= i < |l|
      ensures l[i] != c
    {
      assert l[i] == LowerChar(s[i]);
    }
  }

  /** A name without capitals that contains `.<type>` anywhere, not only at its end, has
      that type. */
  lemma HasOwnType(base: string, ty: string, rest: string)
    requires forall i :: 0 <= i < |base| ==> !IsUpper(base[i])
    requires forall i :: 0 <= i < |ty| ==> !IsUpper(ty[i])
    requires forall i :: 0 <= i < |rest| ==> !IsUpper(rest[i])
    ensures HasType(base + "." + ty + rest, ty)
  {
    var name := base + "." + ty + rest;
    assert forall i :: 0 <= i < |name| ==> !IsUpper(name[i]);
    LowerOfLowercase(name);
    assert name[|base|..|base| + 1 + |ty|] == "." + ty;
    assert OccursAt(Lower(name), "." + ty, |base|);
  }

  /** The test is for a substring, not a suffix: `x.jpg.zip` is extracted as a `jpg`. */
  lemma SubstringNotSuffix()
    ensures Picks(Items(Tuple, ["jpg", "png"]), "x.jpg.zip")
  {
    HasOwnType("x", "jpg", ".zip");
    assert "x" + "." + "jpg" + ".zip" == "x.jpg.zip";
    assert Members(Items(Tuple, ["jpg", "png"]))[0] == "jpg";
  }

  // ---------------------------------------------------------------------------
  // The intended filter
  // ---------------------------------------------------------------------------

  /** The filter as its documentation describes it: a string names one type, a tuple or
      list names several, and a file is picked when its lower-cased name contains
      `'.'` followed by one of the named types. */
  predicate IntendedPicks(t: TargetType, name: string) {
    match t
    case NoFilter => true
    case Str(s) => s == "" || HasType(name, s)
    case Items(_, vs) => vs == [] || exists k :: 0 <= k < |vs| && HasType(name, vs[k])
  }

  /** Under the intended filter a container picks a file exactly when one of its types,
      given alone as a string, would: whatever the number of types. */
  lemma {:induction false} IntendedItemsAreAnyOf(kind: Container, vs: seq<string>, name: string)
    requires vs != [] && forall k :: 0 <= k < |vs| ==> vs[k] != ""
    ensures IntendedPicks(Items(kind, vs), name) <==> exists k :: 0 <= k < |vs| && IntendedPicks(Str(vs[k]), name)
  {
  }

  /** Under the intended filter a file named `<base>.<type>` is picked by its own type,
      alone or in a tuple or list, when the name has no capitals. */
  lemma IntendedPicksOwnType(base: string, ty: string, kind: Container, vs: seq<string>, k: nat)
    requires ty != "" && forall i :: 0 <= i < |ty| ==> !IsUpper(ty[i])
    requires forall i :: 0 <= i < |base| ==> !IsUpper(base[i])
    requires k < |vs| && vs[k] == ty
    ensures IntendedPicks(Str(ty), base + "." + ty)
    ensures IntendedPicks(Items(kind, vs), base + "." + ty)
  {
    HasOwnType(base, ty, "");
    assert base + "." + ty + "" == base + "." + ty;
  }

  /** Where the code and the documentation agree: a one-character string filter, and a
      tuple or list of several types. */
  lemma PicksAsIntended(t: TargetType, name: string)
    requires (t.Str? && |t.s| == 1) || (t.Items? && |t.values| > 1)
    ensures Picks(t, name) <==> IntendedPicks(t, name)
  {
    if t.Items? {
      var m := Members(t);
      assert m == t.values;
      assert Picks(t, name) <==> exists k :: 0 <= k < |m| && HasType(name, m[k]);
    }
  }

  /** The walked files the documented filter picks. */
  function IntendedSel(t: TargetType): Entry -> bool {
    (e: Entry) => IntendedPicks(t, e.name)
  }

  /** Where the code behaves as documented, `folder_unpacker` copies exactly the files the
      documented filter picks, in walk order. */
  lemma {:induction false} UnpackerAsIntended(walk: seq<Entry>, t: TargetType)
    requires (t.Str? && |t.s| == 1) || (t.Items? && |t.values| > 1)
    ensures Selected(walk, PickSel(t)) == Selected(walk, IntendedSel(t))
  {
    if walk != [] {
      UnpackerAsIntended(walk[..|walk| - 1], t);
      PicksAsIntended(t, walk[|walk| - 1].name);
    }
  }

  /** Finding: a string filter of several characters is tried one character at a time,
      so the filter "png" extracts `a.gif` (it contains ".g"), which the intended filter
      does not. */
  lemma StringFilterSplitIntoCharacters()
    ensures Picks(Str("png"), "a.gif")
    ensures !IntendedPicks(Str("png"), "a.gif")
  {
    var name := "a.gif";
    LowerOfLowercase(name);
    assert OccursAt(Lower(name), "." + "g", 1);
    assert Members(Str("png"))[2] == "g";
    var needle := "." + "png";
    assert needle == ['.', 'p', 'n', 'g'];
    AbsentCharacter(Lower(name), needle, 1);
  }

  /** A one-element tuple or list is looked up by its printed form, which begins with `(`
      or `[`: a name without that character is never extracted, whatever the type. */
  lemma SingleItemContainerMatchesNoPlainName(kind: Container, ty: string, name: string)
    requires kind.Tuple? ==> '(' !in name
    requires kind.List? ==> '[' !in name
    ensures !Picks(Items(kind, [ty]), name)
  {
    var t := Items(kind, [ty]);
    var needle := "." + StrOfSingle(t);
    assert needle[1] == StrOfSingle(t)[0];
    LowerKeepsAbsent(name, needle[1]);
    AbsentCharacter(Lower(name), needle, 1);
  }

  /** Finding: a one-element tuple or list such as `("jpg",)` or `["jpg"]` never extracts
      `<base>.jpg`, which the intended filter does. */
  lemma SingleItemContainerNeverMatches(kind: Container, base: string, ty: string)
    requires ty != "" && forall i :: 0 <= i < |ty| ==> !IsUpper(ty[i])
    requires forall i :: 0 <= i < |base| ==> !IsUpper(base[i])
    requires '(' !in base && '(' !in ty && '[' !in base && '[' !in ty
    ensures !Picks(Items(kind, [ty]), base + "." + ty)
    ensures IntendedPicks(Items(kind, [ty]), base + "." + ty)
  {
    SingleItemContainerMatchesNoPlainName(kind, ty, base + "." + ty);
    IntendedPicksOwnType(base, ty, kind, [ty], 0);
  }
}
