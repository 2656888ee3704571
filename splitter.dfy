/**
 * The splitting half of dataset_fixer.py: `splitter` validates the `relation`
 * argument against the listing of the source folder and dispatches on
 * `relation_type`; `splitter_numerical` checks the counts, makes the folders
 * `1_part` ... `n_part` and copies consecutive runs of the listing into them;
 * `splitter_mutual` normalises the ratio and hands it to `splitter_percentage`,
 * which does nothing. The listing (`os.listdir(current_root)`) is the parameter
 * `listing`: the names of the files directly inside the source folder, in
 * listing order.
 */
module DatasetSplitter {
  import opened Wrappers
  import opened PyStr
  import opened Destination

  // ---------------------------------------------------------------------------
  // The relation argument and the errors
  // ---------------------------------------------------------------------------

  /** A number in `relation`. A `bool` compares and adds like 0 or 1 but is not `type(...) == int`. */
  datatype Num = PyInt(i: int) | PyFloat(r: real) | PyBool(b: bool)

  function Value(n: Num): real {
    match n
    case PyInt(i) => i as real
    case PyFloat(r) => r
    case PyBool(b) => if b then 1.0 else 0.0
  }

  /** The `relation` argument: a tuple or list of numbers, or a value of any other type. */
  datatype Relation = Sequence(values: seq<Num>) | NotSequence

  /** The failed assertion (or raised error) that ends a split. */
  datatype SplitError =
    | NotATupleOrList                       // relation is not a tuple or list
    | TooManyParts(parts: nat, files: nat)  // len(relation) >= number of listed entries
    | NotPositive(index: nat)               // the first value that is not > 0
    | SumMismatch(total: real, count: nat)  // "{sum} != {count}"
    | NotAnInteger(index: nat)              // the first value whose type is not int
    | PartExists(part: nat)                 // os.mkdir of "<part>_part" raises: it exists
    | UnknownRelationType(name: string)     // relation_type is none of the three modes
    | DivisionByZero                        // splitter_mutual on values summing to 0

  /** `sum(relation)`. */
  function Total(vs: seq<Num>): real {
    if vs == [] then 0.0 else Total(vs[..|vs| - 1]) + Value(vs[|vs| - 1])
  }

  predicate NotPositiveValue(n: Num) {
    Value(n) <= 0.0
  }

  predicate NotInt(n: Num) {
    !n.PyInt?
  }

  // ---------------------------------------------------------------------------
  // splitter's validation
  // ---------------------------------------------------------------------------

  /** The checks `splitter` makes before it dispatches, in source order: the type of
      `relation`, then its length against the listing, then the sign of each value. */
  function Precheck(relation: Relation, count: nat): (r: Option<SplitError>)
    ensures r.None? <==>
              relation.Sequence? && |relation.values| < count
              && forall i :: 0 <= i < |relation.values| ==> Value(relation.values[i]) > 0.0
    ensures relation.NotSequence? <==> r == Some(NotATupleOrList)
    ensures relation.Sequence? ==> (|relation.values| >= count <==> r == Some(TooManyParts(|relation.values|, count)))
    ensures r.Some? && r.value.TooManyParts? ==> relation.Sequence? && |relation.values| >= count
    ensures r.Some? && r.value.NotPositive? ==>
              relation.Sequence? && |relation.values| < count
              && r.value.index < |relation.values| && Value(relation.values[r.value.index]) <= 0.0
              && forall i :: 0 <= i < r.value.index ==> Value(relation.values[i]) > 0.0
    ensures r.Some? ==> r.value.NotATupleOrList? || r.value.TooManyParts? || r.value.NotPositive?
  {
    if relation.NotSequence? then Some(NotATupleOrList)
    else if |relation.values| >= count then Some(TooManyParts(|relation.values|, count))
    else
      match FirstWhere(relation.values, NotPositiveValue)
      case Some(i) => Some(NotPositive(i))
      case None => None
  }

  // ---------------------------------------------------------------------------
  // splitter_numerical
  // ---------------------------------------------------------------------------

  /** The checks `splitter_numerical` makes before it creates anything: the sum first,
      then the type of every value. */
  function NumericalCheck(values: seq<Num>, count: nat): (r: Option<SplitError>)
    ensures r.None? <==> Total(values) == count as real && forall i :: 0 <= i < |values| ==> values[i].PyInt?
    ensures Total(values) != count as real <==> r == Some(SumMismatch(Total(values), count))
    ensures r.Some? && r.value.NotAnInteger? ==>
              Total(values) == count as real
              && r.value.index < |values| && !values[r.value.index].PyInt?
              && forall i :: 0 <= i < r.value.index ==> values[i].PyInt?
    ensures r.Some? ==> r.value.SumMismatch? || r.value.NotAnInteger?
  {
    if Total(values) != count as real then Some(SumMismatch(Total(values), count))
    else
      match FirstWhere(values, NotInt)
      case Some(i) => Some(NotAnInteger(i))
      case None => None
  }

  /** The counts of a relation that passed the type check. */
  function Counts(values: seq<Num>): (c: seq<int>)
    requires forall i :: 0 <= i < |values| ==> values[i].PyInt?
    ensures |c| == |values|
    ensures forall i :: 0 <= i < |values| ==> c[i] == values[i].i
  {
    if values == [] then [] else [values[0].i] + Counts(values[1..])
  }

  /** `iter_point` when part `k` (0-based) begins: the sum of the earlier counts. */
  function Start(c: seq<int>, k: nat): int
    requires k <= |c|
  {
    if k == 0 then 0 else Start(c, k - 1) + c[k - 1]
  }

  /** `files[iter_point:(iter_point + part)]`: what part `k` (0-based) receives. */
  function Part(listing: seq<string>, c: seq<int>, k: nat): seq<string>
    requires k < |c|
  {
    PySlice(listing, Start(c, k), Start(c, k) + c[k])
  }

  /** `str(k) + "_part"`: the folder of part `k` (1-based). */
  function PartName(k: nat): (s: string)
    ensures s != Root && '/' !in s
  {
    DecimalDigits(k);
    Decimal(k) + "_part"
  }

  /** The folders of parts 1 to `n`. */
  function PartNames(n: int): set<string>
    decreases n
  {
    if n <= 0 then {} else PartNames(n - 1) + {PartName(n)}
  }

  /** The folder of every part from 1 to `n` is among them. */
  lemma {:induction false} PartNamesHas(n: int, k: nat)
    requires 1 <= k <= n
    ensures PartName(k) in PartNames(n)
    decreases n
  {
    if k < n {
      PartNamesHas(n - 1, k);
    }
  }

  /** The folder of a later part is not among them. */
  lemma {:induction false} PartNamesExclude(n: int, m: nat)
    requires n < m
    ensures PartName(m) !in PartNames(n)
    decreases n
  {
    if n > 0 {
      PartNamesExclude(n - 1, m);
      if PartName(m) == PartName(n) {
        PartNameInjective(m, n);
      }
    }
  }

  /** Different parts have different folders. */
  lemma PartNameInjective(a: nat, b: nat)
    requires PartName(a) == PartName(b)
    ensures a == b
  {
    var s := PartName(a);
    assert |Decimal(a)| == |Decimal(b)|;
    assert Decimal(a) == s[..|Decimal(a)|] == Decimal(b);
    DecimalInjective(a, b);
  }

  lemma PartNamesDistinct()
    ensures forall a: nat, b: nat :: a != b ==> PartName(a) != PartName(b)
  {
    forall a: nat, b: nat | PartName(a) == PartName(b)
      ensures a == b
    {
      PartNameInjective(a, b);
    }
  }

  /** `splitter_numerical` with `n` values makes exactly `n` distinct folders. */
  lemma {:induction false} PartNamesCount(n: nat)
    ensures |PartNames(n)| == n
  {
    if n > 0 {
      PartNamesCount(n - 1);
      PartNamesExclude(n - 1, n);
    }
  }

  /** The first part (1-based) among `1..n` whose folder already exists. */
  function FirstExistingPart(n: nat, folders: set<string>): (r: Option<nat>)
    ensures r.None? <==> forall k :: 1 <= k <= n ==> PartName(k) !in folders
    ensures r.Some? ==> 1 <= r.value <= n && PartName(r.value) in folders
                        && forall k :: 1 <= k < r.value ==> PartName(k) !in folders
  {
    if n == 0 then None
    else
      match FirstExistingPart(n - 1, folders)
      case Some(k) => Some(k)
      case None => if PartName(n) in folders then Some(n) else None
  }

  /** How `splitter_numerical` ends on a destination whose sub-folders are `folders`. */
  function NumericalVerdict(values: seq<Num>, count: nat, folders: set<string>): (r: Outcome<SplitError>)
    ensures r.Pass? <==>
              Total(values) == count as real && (forall i :: 0 <= i < |values| ==> values[i].PyInt?)
              && forall k :: 1 <= k <= |values| ==> PartName(k) !in folders
    ensures r.Fail? && r.error.PartExists? ==>
              NumericalCheck(values, count).None? && 1 <= r.error.part <= |values| && PartName(r.error.part) in folders
    ensures r.Fail? ==> r.error.SumMismatch? || r.error.NotAnInteger? || r.error.PartExists?
  {
    match NumericalCheck(values, count)
    case Some(e) => Fail(e)
    case None =>
      match FirstExistingPart(|values|, folders)
      case Some(k) => Fail(PartExists(k))
      case None => Pass
  }

  /** `for file in names: shutil.copy(file, into)`. */
  method CopyEach(d: Destination, names: seq<string>, into: string)
    requires d.Valid() && (into == Root || into in d.folders)
    modifies d
    ensures d.Valid() && d.folders == old(d.folders)
    ensures Lookup(d.copies, into) == Lookup(old(d.copies), into) + names
    ensures forall f :: f != into ==> Lookup(d.copies, f) == Lookup(old(d.copies), f)
  {
    ghost var before := d.copies;
    var m := 0;
    while m < |names|
      invariant 0 <= m <= |names|
      invariant d.Valid() && d.folders == old(d.folders)
      invariant Lookup(d.copies, into) == Lookup(before, into) + names[..m]
      invariant forall f :: f != into ==> Lookup(d.copies, f) == Lookup(before, f)
    {
      d.Copy(names[m], into);
      assert names[..m + 1] == names[..m] + [names[m]];
      m := m + 1;
    }
    assert names[..|names|] == names;
  }

  /** The first loop of `splitter_numerical`: `os.mkdir` of `1_part` ... `n_part` in turn.
      It stops at the first folder that already exists, having made the ones before it. */
  method MakePartFolders(d: Destination, n: nat) returns (failed: Option<nat>)
    requires d.Valid()
    modifies d
    ensures d.Valid()
    ensures failed == FirstExistingPart(n, old(d.folders))
    ensures failed.Some? ==> d.folders == old(d.folders) + PartNames(failed.value - 1)
    ensures failed.None? ==> d.folders == old(d.folders) + PartNames(n)
    ensures forall f :: Lookup(d.copies, f) == Lookup(old(d.copies), f)
    ensures failed.None? ==> forall k :: 1 <= k <= n ==> PartName(k) in d.folders && Lookup(d.copies, PartName(k)) == []
  {
    ghost var before := d.copies;
    var i := 0;
    while i < n
      invariant 0 <= i <= n
      invariant d.Valid() && d.folders == old(d.folders) + PartNames(i)
      invariant forall k :: 1 <= k <= i ==> PartName(k) !in old(d.folders)
      invariant forall f :: Lookup(d.copies, f) == Lookup(before, f)
    {
      var present := MakeNextPart(d, n, i, old(d.folders), before);
      if present {
        return Some(i + 1);
      }
      i := i + 1;
    }
    failed := None;
    PartNamesAll(n);
  }

  /** One turn of that loop: `os.mkdir` of part `i + 1`, which raises when its folder
      exists; parts `1..i` were free and have been made. */
  method MakeNextPart(d: Destination, n: nat, i: nat, ghost folders0: set<string>, ghost before: map<string, seq<string>>)
    returns (present: bool)
    requires i < n && d.Valid() && d.folders == folders0 + PartNames(i)
    requires forall k :: 1 <= k <= i ==> PartName(k) !in folders0
    requires forall f :: Lookup(d.copies, f) == Lookup(before, f)
    modifies d
    ensures d.Valid()
    ensures present <==> PartName(i + 1) in folders0
    ensures present ==> FirstExistingPart(n, folders0) == Some(i + 1) && d.folders == old(d.folders)
    ensures !present ==> d.folders == folders0 + PartNames(i + 1)
    ensures forall f :: Lookup(d.copies, f) == Lookup(before, f)
  {
    var name := PartName(i + 1);
    present := d.Exists(name);
    PartNamesExclude(i, i + 1);
    if present {
      FirstExistingPartAt(n, folders0, i + 1);
      return;
    }
    d.MakeDir(name);
  }

  /** Every part from 1 to `n` has its folder among the first `n`. */
  lemma PartNamesAll(n: nat)
    ensures forall k :: 1 <= k <= n ==> PartName(k) in PartNames(n)
  {
    forall k | 1 <= k <= n
      ensures PartName(k) in PartNames(n)
    {
      PartNamesHas(n, k);
    }
  }

  /** When parts `1..k-1` are free and part `k` exists, part `k` is the first existing one. */
  lemma {:induction false} FirstExistingPartAt(n: nat, folders: set<string>, k: nat)
    requires 1 <= k <= n && PartName(k) in folders
    requires forall j :: 1 <= j < k ==> PartName(j) !in folders
    ensures FirstExistingPart(n, folders) == Some(k)
  {
    if n > k {
      FirstExistingPartAt(n - 1, folders, k);
    } else {
      assert FirstExistingPart(n - 1, folders).None?;
    }
  }

  /** The second loop of `splitter_numerical`: for each count, the next run of the listing
      is copied into that part's folder and `iter_point` moves past it. */
  method CopyParts(d: Destination, listing: seq<string>, counts: seq<int>)
    requires d.Valid() && forall k :: 1 <= k <= |counts| ==> PartName(k) in d.folders
    modifies d
    ensures d.Valid() && d.folders == old(d.folders)
    ensures forall j :: 0 <= j < |counts| ==>
              Lookup(d.copies, PartName(j + 1)) == Lookup(old(d.copies), PartName(j + 1)) + Part(listing, counts, j)
    ensures forall f :: f !in PartNames(|counts|) ==> Lookup(d.copies, f) == Lookup(old(d.copies), f)
  {
    PartNamesDistinct();
    ghost var before := d.copies;
    var k := 0;
    var iterPoint := 0;
    while k < |counts|
      invariant 0 <= k <= |counts|
      invariant iterPoint == Start(counts, k)
      invariant d.Valid() && d.folders == old(d.folders)
      invariant forall j :: 0 <= j < k ==>
                  Lookup(d.copies, PartName(j + 1)) == Lookup(before, PartName(j + 1)) + Part(listing, counts, j)
      invariant forall j :: k < j <= |counts| ==> Lookup(d.copies, PartName(j)) == Lookup(before, PartName(j))
      invariant forall f :: f !in PartNames(|counts|) ==> Lookup(d.copies, f) == Lookup(before, f)
    {
      CopyNextPart(d, listing, counts, k, iterPoint, before);
      iterPoint := iterPoint + counts[k];
      k := k + 1;
    }
  }

  /** One turn of the copy loop: part `k` goes into folder `k+1`, and every other log stays. */
  method CopyNextPart(d: Destination, listing: seq<string>, counts: seq<int>, k: nat, iterPoint: int, ghost before: map<string, seq<string>>)
    requires k < |counts| && iterPoint == Start(counts, k)
    requires d.Valid() && forall j :: 1 <= j <= |counts| ==> PartName(j) in d.folders
    requires forall j :: 0 <= j < k ==>
               Lookup(d.copies, PartName(j + 1)) == Lookup(before, PartName(j + 1)) + Part(listing, counts, j)
    requires forall j :: k < j <= |counts| ==> Lookup(d.copies, PartName(j)) == Lookup(before, PartName(j))
    requires forall f :: f !in PartNames(|counts|) ==> Lookup(d.copies, f) == Lookup(before, f)
    modifies d
    ensures d.Valid() && d.folders == old(d.folders)
    ensures forall j :: 0 <= j < k + 1 ==>
              Lookup(d.copies, PartName(j + 1)) == Lookup(before, PartName(j + 1)) + Part(listing, counts, j)
    ensures forall j :: k + 1 < j <= |counts| ==> Lookup(d.copies, PartName(j)) == Lookup(before, PartName(j))
    ensures forall f :: f !in PartNames(|counts|) ==> Lookup(d.copies, f) == Lookup(before, f)
  {
    var into := PartName(k + 1);
    PartNamesHas(|counts|, k + 1);
    var names := PySlice(listing, iterPoint, iterPoint + counts[k]);
    assert names == Part(listing, counts, k);
    ghost var mid := d.copies;
    assert Lookup(mid, into) == Lookup(before, into);
    CopyEach(d, names, into);
    forall j | 0 <= j < k + 1
      ensures Lookup(d.copies, PartName(j + 1)) == Lookup(before, PartName(j + 1)) + Part(listing, counts, j)
    {
      if j < k {
        if PartName(j + 1) == into { PartNameInjective(j + 1, k + 1); }
        assert Lookup(d.copies, PartName(j + 1)) == Lookup(mid, PartName(j + 1));
      }
    }
    forall j | k + 1 < j <= |counts|
      ensures PartName(j) != into
    {
      if PartName(j) == into { PartNameInjective(j, k + 1); }
    }
  }

  /** `splitter_numerical(current_root, new_root, relation)`: on success it has made the
      folders `1_part` ... `n_part` and copied `Part(listing, counts, k)` into folder `k+1`;
      when a folder already exists it stops with the folders made so far and nothing
      copied; when a check fails nothing changes. */
  method SplitterNumerical(d: Destination, listing: seq<string>, relation: seq<Num>) returns (r: Outcome<SplitError>)
    requires d.Valid()
    modifies d
    ensures d.Valid()
    ensures r == NumericalVerdict(relation, |listing|, old(d.folders))
    ensures r.Fail? && !r.error.PartExists? ==> d.folders == old(d.folders)
    ensures r.Fail? && r.error.PartExists? ==> d.folders == old(d.folders) + PartNames(r.error.part - 1)
    ensures r.Fail? ==> forall f :: d.Copied(f) == old(d.Copied(f))
    ensures r.Pass? ==> d.folders == old(d.folders) + PartNames(|relation|)
    ensures r.Pass? ==> forall k :: 0 <= k < |relation| ==> d.Copied(PartName(k + 1)) == Part(listing, Counts(relation), k)
    ensures r.Pass? ==> forall f :: f !in PartNames(|relation|) ==> d.Copied(f) == old(d.Copied(f))
  {
    var check := NumericalCheck(relation, |listing|);
    if check.Some? {
      return Fail(check.value);
    }
    var counts := Counts(relation);
    // Every part's folder is made before anything is copied.
    var failed := MakePartFolders(d, |relation|);
    if failed.Some? {
      return Fail(PartExists(failed.value));
    }
    // Each part receives the next run of the listing.
    CopyParts(d, listing, counts);
    r := Pass;
  }

  // ---------------------------------------------------------------------------
  // What splitter_numerical's partition promises
  // ---------------------------------------------------------------------------

  predicate NonNegative(c: seq<int>) {
    forall i :: 0 <= i < |c| ==> c[i] >= 0
  }

  lemma {:induction false} StartMonotone(c: seq<int>, j: nat, k: nat)
    requires NonNegative(c) && j <= k <= |c|
    ensures Start(c, j) <= Start(c, k)
    ensures 0 <= Start(c, j)
    decreases k
  {
    if j < k {
      StartMonotone(c, j, k - 1);
    } else if k > 0 {
      StartMonotone(c, 0, k - 1);
    }
  }

  /** With non-negative counts that add up to the listing, part `k` is the ordinary slice
      from `Start(c, k)` to `Start(c, k + 1)`, of exactly `c[k]` names. */
  lemma PartIsSlice(listing: seq<string>, c: seq<int>, k: nat)
    requires NonNegative(c) && Start(c, |c|) == |listing| && k < |c|
    ensures 0 <= Start(c, k) <= Start(c, k + 1) <= |listing|
    ensures Part(listing, c, k) == listing[Start(c, k)..Start(c, k + 1)]
    ensures |Part(listing, c, k)| == c[k]
  {
    StartMonotone(c, k, k + 1);
    StartMonotone(c, k + 1, |c|);
  }

  /** The parts concatenated in order. */
  function Concat(parts: seq<seq<string>>): seq<string> {
    if parts == [] then [] else Concat(parts[..|parts| - 1]) + parts[|parts| - 1]
  }

  /** All parts, in part order: one per count. */
  function Parts(listing: seq<string>, c: seq<int>): (ps: seq<seq<string>>)
    ensures |ps| == |c|
  {
    seq(|c|, k requires 0 <= k < |c| => Part(listing, c, k))
  }

  /** With non-negative counts that add up to the listing, the parts together are the
      whole listing in listing order: no file is lost, repeated or reordered. */
  lemma PartsCover(listing: seq<string>, c: seq<int>)
    requires NonNegative(c) && Start(c, |c|) == |listing|
    ensures Concat(Parts(listing, c)) == listing
  {
    var ps := Parts(listing, c);
    PartsPrefix(listing, c, |c|);
    assert ps[..|c|] == ps;
  }

  /** The first `k` parts together are the listing up to where part `k` begins. */
  lemma {:induction false} PartsPrefix(listing: seq<string>, c: seq<int>, k: nat)
    requires NonNegative(c) && Start(c, |c|) == |listing| && k <= |c|
    ensures 0 <= Start(c, k) <= |listing|
    ensures Concat(Parts(listing, c)[..k]) == listing[..Start(c, k)]
  {
    var ps := Parts(listing, c);
    if k == 0 {
      assert ps[..0] == [];
    } else {
      PartsPrefix(listing, c, k - 1);
      PartIsSlice(listing, c, k - 1);
      assert ps[..k][..k - 1] == ps[..k - 1];
      assert listing[..Start(c, k)] == listing[..Start(c, k - 1)] + listing[Start(c, k - 1)..Start(c, k)];
    }
  }

  /** Two different parts share no name when the listing has no repeated names. */
  lemma PartsDisjoint(listing: seq<string>, c: seq<int>, j: nat, k: nat, x: string)
    requires NonNegative(c) && Start(c, |c|) == |listing|
    requires forall p, q :: 0 <= p < q < |listing| ==> listing[p] != listing[q]
    requires j < k < |c|
    ensures !(x in Part(listing, c, j) && x in Part(listing, c, k))
  {
    PartIsSlice(listing, c, j);
    PartIsSlice(listing, c, k);
    StartMonotone(c, j + 1, k);
    if x in Part(listing, c, j) {
      var p :| Start(c, j) <= p < Start(c, j + 1) && listing[p] == x;
      forall q | Start(c, k) <= q < Start(c, k + 1)
        ensures listing[q] != x
      {
        assert p < q;
      }
    }
  }

  /** A relation `splitter` and `splitter_numerical` both accept has positive integer
      counts that add up to the size of the listing. */
  lemma {:induction false} AcceptedCounts(values: seq<Num>, count: nat)
    requires Precheck(Sequence(values), count).None? && NumericalCheck(values, count).None?
    ensures forall k :: 0 <= k < |values| ==> Counts(values)[k] > 0
    ensures NonNegative(Counts(values)) && Start(Counts(values), |values|) == count
  {
    TotalIsStart(values);
  }

  lemma {:induction false} TotalIsStart(values: seq<Num>)
    requires forall i :: 0 <= i < |values| ==> values[i].PyInt?
    ensures Total(values) == Start(Counts(values), |values|) as real
    decreases |values|
  {
    if values != [] {
      var front := values[..|values| - 1];
      TotalIsStart(front);
      StartPrefix(Counts(values), Counts(front), |front|);
    }
  }

  lemma {:induction false} StartPrefix(c: seq<int>, d: seq<int>, k: nat)
    requires k <= |d| <= |c| && d == c[..|d|]
    ensures Start(c, k) == Start(d, k)
  {
    if k > 0 {
      StartPrefix(c, d, k - 1);
    }
  }

  /** Called directly, `splitter_numerical` does not check signs: `(3, -1, 3)` on five files
      passes both of its checks, and Python's slicing then copies the third file into
      both `1_part` and `3_part` while `2_part` stays empty. */
  lemma DirectNegativeCountOverlaps(listing: seq<string>)
    requires |listing| == 5
    ensures NumericalCheck([PyInt(3), PyInt(-1), PyInt(3)], 5).None?
    ensures Part(listing, [3, -1, 3], 0) == listing[0..3]
    ensures Part(listing, [3, -1, 3], 1) == []
    ensures Part(listing, [3, -1, 3], 2) == listing[2..5]
    ensures listing[2] in Part(listing, [3, -1, 3], 0) && listing[2] in Part(listing, [3, -1, 3], 2)
  {
    var vs := [PyInt(3), PyInt(-1), PyInt(3)];
    assert [PyInt(3)][..0] == [];
    assert Total([PyInt(3)]) == 3.0;
    assert vs[..2][..1] == [PyInt(3)];
    assert Total(vs[..2]) == 2.0;
    assert Total(vs) == 5.0;
  }

  // ---------------------------------------------------------------------------
  // splitter_mutual and splitter_percentage
  // ---------------------------------------------------------------------------

  function RealSum(s: seq<real>): real {
    if s == [] then 0.0 else RealSum(s[..|s| - 1]) + s[|s| - 1]
  }

  /** Each value of `vs` divided by `total`, in order. */
  function Shares(vs: seq<Num>, total: real): (p: seq<real>)
    requires total != 0.0
    ensures |p| == |vs|
    ensures forall i :: 0 <= i < |vs| ==> p[i] * total == Value(vs[i])
  {
    seq(|vs|, i requires 0 <= i < |vs| => Value(vs[i]) / total)
  }

  /** The shares add up to the total divided by `total`. */
  lemma {:induction false} SharesSum(vs: seq<Num>, total: real)
    requires total != 0.0
    ensures RealSum(Shares(vs, total)) == Total(vs) / total
  {
    if vs != [] {
      var front := vs[..|vs| - 1];
      SharesSum(front, total);
      assert Shares(vs, total)[..|vs| - 1] == Shares(front, total);
      DivAdd(Total(front), Value(vs[|vs| - 1]), total);
    }
  }

  lemma {:induction false} TotalBounds(vs: seq<Num>, i: nat)
    requires forall j :: 0 <= j < |vs| ==> Value(vs[j]) > 0.0
    requires i < |vs|
    ensures Value(vs[i]) <= Total(vs)
    ensures Total(vs) > 0.0
  {
    var front := vs[..|vs| - 1];
    if i < |vs| - 1 {
      TotalBounds(front, i);
    } else if front != [] {
      TotalBounds(front, 0);
    }
  }

  lemma DivAdd(a: real, b: real, t: real)
    requires t != 0.0
    ensures a / t + b / t == (a + b) / t
  {
  }

  lemma DivSelf(t: real)
    requires t > 0.0
    ensures t / t == 1.0
  {
  }

  /** A positive value no larger than the sum is a share in (0, 1]. */
  lemma ShareBounds(v: real, t: real, p: real)
    requires 0.0 < v <= t && p == v / t
    ensures 0.0 < p <= 1.0
  {
  }

  /** On positive values every share lies in (0, 1] and the shares add up to exactly 1. */
  lemma SharesOfPositive(vs: seq<Num>)
    requires vs != [] && forall i :: 0 <= i < |vs| ==> Value(vs[i]) > 0.0
    ensures Total(vs) > 0.0
    ensures RealSum(Shares(vs, Total(vs))) == 1.0
    ensures forall i :: 0 <= i < |vs| ==> 0.0 < Shares(vs, Total(vs))[i] <= 1.0
  {
    TotalBounds(vs, 0);
    SharesSum(vs, Total(vs));
    DivSelf(Total(vs));
    forall i | 0 <= i < |vs|
      ensures 0.0 < Shares(vs, Total(vs))[i] <= 1.0
    {
      ShareInUnit(vs, i);
    }
  }

  lemma ShareInUnit(vs: seq<Num>, i: nat)
    requires i < |vs| && forall j :: 0 <= j < |vs| ==> Value(vs[j]) > 0.0
    ensures Total(vs) > 0.0 && 0.0 < Shares(vs, Total(vs))[i] <= 1.0
  {
    var t := Total(vs);
    TotalBounds(vs, i);
    var p := Shares(vs, t);
    assert p[i] == Value(vs[i]) / t;
    ShareBounds(Value(vs[i]), t, p[i]);
  }

  /** `splitter_percentage`: an empty function. It makes no folder and copies nothing. */
  method SplitterPercentage(d: Destination, listing: seq<string>, relation: seq<real>)
    ensures d.folders == old(d.folders) && d.copies == old(d.copies)
  {
  }

  /** `splitter_mutual`'s loop: `item / sum(relation)` for each item, appended in order.
      It fails with a division by zero exactly when there is an item and the sum is zero.
      On positive values each share lies in (0, 1] and the shares add up to exactly 1. */
  method SplitterMutual(d: Destination, listing: seq<string>, relation: seq<Num>) returns (r: Result<seq<real>, SplitError>)
    ensures r.Failure? <==> relation != [] && Total(relation) == 0.0
    ensures r.Failure? ==> r.error == DivisionByZero
    ensures relation == [] ==> r == Success([])
    ensures r.Success? && relation != [] ==> Total(relation) != 0.0 && r.value == Shares(relation, Total(relation))
    ensures relation != [] && (forall i :: 0 <= i < |relation| ==> Value(relation[i]) > 0.0) ==>
              r.Success? && RealSum(r.value) == 1.0 && forall i :: 0 <= i < |relation| ==> 0.0 < r.value[i] <= 1.0
  {
    var total := Total(relation);
    if relation != [] && forall i :: 0 <= i < |relation| ==> Value(relation[i]) > 0.0 {
      TotalBounds(relation, 0);
    }
    var percentage: seq<real> := [];
    var j := 0;
    while j < |relation|
      invariant 0 <= j <= |relation|
      invariant j > 0 ==> total != 0.0
      invariant total != 0.0 ==> percentage == Shares(relation[..j], total)
      invariant total == 0.0 ==> percentage == []
    {
      if total == 0.0 {
        return Failure(DivisionByZero);
      }
      assert Shares(relation[..j + 1], total) == Shares(relation[..j], total) + [Value(relation[j]) / total];
      percentage := percentage + [Value(relation[j]) / total];
      j := j + 1;
    }
    assert relation[..|relation|] == relation;
    if relation != [] && forall i :: 0 <= i < |relation| ==> Value(relation[i]) > 0.0 {
      SharesOfPositive(relation);
    }
    SplitterPercentage(d, listing, percentage);
    r := Success(percentage);
  }

  // ---------------------------------------------------------------------------
  // splitter
  // ---------------------------------------------------------------------------

  /** How `splitter` ends on a destination whose sub-folders are `folders`. */
  function SplitVerdict(relation: Relation, count: nat, relationType: string, folders: set<string>): (r: Outcome<SplitError>)
    ensures r.Pass? ==>
              relation.Sequence? && |relation.values| < count
              && forall i :: 0 <= i < |relation.values| ==> Value(relation.values[i]) > 0.0
    ensures r.Pass? && relationType == "numerical" ==> Total(relation.values) == count as real
    ensures relationType != "numerical" && relationType != "mutual" && relationType != "percentage" ==> r.Fail?
    ensures r.Fail? && r.error.UnknownRelationType? ==> Precheck(relation, count).None? && r.error.name == relationType
  {
    match Precheck(relation, count)
    case Some(e) => Fail(e)
    case None =>
      if relationType == "numerical" then NumericalVerdict(relation.values, count, folders)
      else if relationType == "mutual" || relationType == "percentage" then Pass
      else Fail(UnknownRelationType(relationType))
  }

  /** `splitter(current_root, new_root, relation, relation_type)`. A relation that fails
      the checks, the 'mutual' and 'percentage' modes and an unknown mode leave the
      destination as it was; 'numerical' does what `splitter_numerical` does. */
  method Splitter(d: Destination, listing: seq<string>, relation: Relation, relationType: string) returns (r: Outcome<SplitError>)
    requires d.Valid()
    modifies d
    ensures d.Valid()
    ensures r == SplitVerdict(relation, |listing|, relationType, old(d.folders))
    ensures Precheck(relation, |listing|).Some? || relationType != "numerical" ==>
              d.folders == old(d.folders) && d.copies == old(d.copies)
    ensures Precheck(relation, |listing|).None? && relationType == "numerical" && r.Fail? ==>
              forall f :: d.Copied(f) == old(d.Copied(f))
    ensures Precheck(relation, |listing|).None? && relationType == "numerical" && r.Fail? && !r.error.PartExists? ==>
              d.folders == old(d.folders)
    ensures Precheck(relation, |listing|).None? && relationType == "numerical" && r.Fail? && r.error.PartExists? ==>
              d.folders == old(d.folders) + PartNames(r.error.part - 1)
    ensures r.Pass? && relationType == "numerical" ==>
              && d.folders == old(d.folders) + PartNames(|relation.values|)
              && (forall k :: 0 <= k < |relation.values| ==>
                    d.Copied(PartName(k + 1)) == Part(listing, Counts(relation.values), k))
              && (forall f :: f !in PartNames(|relation.values|) ==> d.Copied(f) == old(d.Copied(f)))
  {
    var pre := Precheck(relation, |listing|);
    if pre.Some? {
      return Fail(pre.value);
    }
    if relationType == "numerical" {
      r := SplitterNumerical(d, listing, relation.values);
    } else if relationType == "mutual" {
      var percentage := SplitterMutual(d, listing, relation.values);
      r := Pass;
    } else if relationType == "percentage" {
      SplitterPercentage(d, listing, seq(|relation.values|, i requires 0 <= i < |relation.values| => Value(relation.values[i])));
      r := Pass;
    } else {
      r := Fail(UnknownRelationType(relationType));
    }
  }

  /** Splitting five files as (2, 3): both checks pass, `1_part` gets the first two files
      and `2_part` the last three. The same relation on six files is refused with
      "5 != 6" before any folder is made. */
  lemma SplitTwoThree(listing: seq<string>, folders: set<string>)
    requires |listing| == 5 && "1_part" !in folders && "2_part" !in folders
    ensures SplitVerdict(Sequence([PyInt(2), PyInt(3)]), 5, "numerical", folders) == Pass
    ensures Part(listing, [2, 3], 0) == listing[..2] && Part(listing, [2, 3], 1) == listing[2..]
    ensures SplitVerdict(Sequence([PyInt(2), PyInt(3)]), 6, "numerical", folders) == Fail(SumMismatch(5.0, 6))
  {
    var vs := [PyInt(2), PyInt(3)];
    assert vs[..1] == [PyInt(2)] && [PyInt(2)][..0] == [];
    assert Total(vs) == 5.0;
    assert Counts(vs) == [2, 3];
    assert PartName(1) == "1_part" && PartName(2) == "2_part";
    assert FirstExistingPart(1, folders) == None;
  }
}
