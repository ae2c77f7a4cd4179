/** Frame file names, the sort key that reads their number back, and the
    numeric order in which the frames directory is listed (main.py lines 36,
    83 and 107). */
module FrameNames {
  import opened Outcomes
  import opened PyText

  /** The name extract_frames gives to the j-th saved frame: `frame_{j}.jpg`. */
  function FrameName(j: nat): string
  {
    "frame_" + NatToStr(j) + ".jpg"
  }

  /** The first `m` frame names, in numeric order. */
  function Frames(m: nat): seq<string>
  {
    seq(m, j requires 0 <= j => FrameName(j))
  }

  /** The sort key `int(x.split('_')[1].split('.')[0])`: IndexError when the
      name has no underscore, ValueError when the second '_'-separated piece,
      cut at its first dot, is not a decimal number. */
  function SortKey(name: string): (r: Result<nat, PyError>)
    ensures r == Failure(IndexError) <==> '_' !in name
    ensures r.Failure? ==> r.error in {IndexError, ValueError}
  {
    SplitArity(name, '_');
    var byUnderscore := Split(name, '_');
    if |byUnderscore| < 2 then Failure(IndexError)
    else ParseInt(Split(byUnderscore[1], '.')[0])
  }

  /** Reading back a frame name gives the number it was written with. */
  lemma SortKeyOfFrameName(j: nat)
    ensures SortKey(FrameName(j)) == Success(j)
  {
    var digits := NatToStr(j);
    assert FrameName(j) == "frame" + ['_'] + (digits + ".jpg");
    SplitAtFirstSep("frame", '_', digits + ".jpg");
    assert '_' !in digits + ".jpg" by {
      assert forall i :: 0 <= i < |digits| ==> IsDigit(digits[i]);
    }
    SplitWithoutSep(digits + ".jpg", '_');
    assert digits + ".jpg" == digits + ['.'] + "jpg";
    assert '.' !in digits by {
      assert forall i :: 0 <= i < |digits| ==> IsDigit(digits[i]);
    }
    SplitAtFirstSep(digits, '.', "jpg");
    ParseIntOfNatToStr(j);
  }

  /** The numeric key of a name whose key can be computed (0 otherwise; only
      used where every key is known to exist). */
  function Key(name: string): nat
  {
    if SortKey(name).Success? then SortKey(name).value else 0
  }

  predicate SortedBy<T>(key: T -> nat, s: seq<T>)
  {
    forall i, j :: 0 <= i < j < |s| ==> key(s[i]) <= key(s[j])
  }

  /** Putting an element no larger than the head in front keeps a list sorted. */
  lemma SortedCons<T>(key: T -> nat, y: T, s: seq<T>)
    requires SortedBy(key, s)
    requires s != [] ==> key(y) <= key(s[0])
    ensures SortedBy(key, [y] + s)
  {
  }

  /** Puts `x` in front of the first element whose key is not smaller. */
  function Insert<T>(key: T -> nat, x: T, s: seq<T>): seq<T>
  {
    if s == [] || key(x) <= key(s[0]) then [x] + s
    else [s[0]] + Insert(key, x, s[1..])
  }

  /** Inserting adds `x` to the elements and nothing else. */
  lemma {:induction false} InsertPermutes<T>(key: T -> nat, x: T, s: seq<T>)
    ensures multiset(Insert(key, x, s)) == multiset(s) + multiset{x}
  {
    if !(s == [] || key(x) <= key(s[0])) {
      InsertPermutes(key, x, s[1..]);
      assert s == [s[0]] + s[1..];
      assert multiset([s[0]] + Insert(key, x, s[1..])) == multiset{s[0]} + multiset(Insert(key, x, s[1..]));
    }
  }

  /** Inserting into a sorted list keeps it sorted. */
  lemma {:induction false} InsertSorted<T>(key: T -> nat, x: T, s: seq<T>)
    requires SortedBy(key, s)
    ensures SortedBy(key, Insert(key, x, s))
    ensures Insert(key, x, s)[0] == x || Insert(key, x, s)[0] == s[0]
  {
    if s == [] || key(x) <= key(s[0]) {
      SortedCons(key, x, s);
    } else {
      var rest := Insert(key, x, s[1..]);
      InsertSorted(key, x, s[1..]);
      assert rest[0] == x || key(s[0]) <= key(rest[0]);
      SortedCons(key, s[0], rest);
    }
  }

  /** `sorted(s, key=key)`: a permutation of `s` in ascending key order (the
      order among equal keys is not stated). */
  function InsertionSort<T>(key: T -> nat, s: seq<T>): (r: seq<T>)
    ensures SortedBy(key, r)
    ensures multiset(r) == multiset(s)
  {
    if s == [] then []
    else
      var rest := InsertionSort(key, s[1..]);
      InsertSorted(key, s[0], rest);
      InsertPermutes(key, s[0], rest);
      assert s == [s[0]] + s[1..];
      Insert(key, s[0], rest)
  }

  /** Removing equal heads from two permutations of each other leaves permutations. */
  lemma TailsPermutation<T>(a: seq<T>, b: seq<T>)
    requires a != [] && b != [] && a[0] == b[0]
    requires multiset(a) == multiset(b)
    ensures multiset(a[1..]) == multiset(b[1..])
  {
    assert a == [a[0]] + a[1..];
    assert b == [b[0]] + b[1..];
    assert multiset(a[1..]) == multiset(a) - multiset{a[0]};
    assert multiset(b[1..]) == multiset(b) - multiset{b[0]};
  }

  /** Two orderings by key of the same multiset start with the same element
      when no two distinct elements share a key. */
  lemma HeadsAgree<T>(key: T -> nat, a: seq<T>, b: seq<T>)
    requires a != [] && b != []
    requires SortedBy(key, a) && SortedBy(key, b)
    requires multiset(a) == multiset(b)
    requires forall i, j :: 0 <= i < |a| && 0 <= j < |a| && key(a[i]) == key(a[j]) ==> a[i] == a[j]
    ensures a[0] == b[0]
  {
    assert a[0] in b by { assert a[0] in multiset(b); }
    var j :| 0 <= j < |b| && b[j] == a[0];
    assert b[0] in a by { assert b[0] in multiset(a); }
    var i :| 0 <= i < |a| && a[i] == b[0];
    assert key(a[0]) <= key(a[i]);
    assert key(b[0]) <= key(b[j]);
  }

  /** Two orderings by key of the same multiset agree when no two distinct
      elements share a key. */
  lemma {:induction false} SortedPermutationsAgree<T>(key: T -> nat, a: seq<T>, b: seq<T>)
    requires SortedBy(key, a) && SortedBy(key, b)
    requires multiset(a) == multiset(b)
    requires forall i, j :: 0 <= i < |a| && 0 <= j < |a| && key(a[i]) == key(a[j]) ==> a[i] == a[j]
    ensures a == b
    decreases |a|
  {
    assert |a| == |multiset(a)| == |multiset(b)| == |b|;
    if a != [] {
      HeadsAgree(key, a, b);
      TailsPermutation(a, b);
      var a', b' := a[1..], b[1..];
      assert SortedBy(key, a') && SortedBy(key, b');
      assert forall i :: 0 <= i < |a'| ==> a'[i] == a[i + 1];
      SortedPermutationsAgree(key, a', b');
      assert a == [a[0]] + a[1..];
      assert b == [b[0]] + b[1..];
    }
  }

  /** The exception raised by the first name, in list order, whose key fails. */
  function FirstKeyError(names: seq<string>): (e: Option<PyError>)
    ensures e == None <==> forall k :: 0 <= k < |names| ==> SortKey(names[k]).Success?
    ensures e.Some? ==> exists k :: 0 <= k < |names| && SortKey(names[k]) == Failure(e.value)
                               && forall k' :: 0 <= k' < k ==> SortKey(names[k']).Success?
  {
    if names == [] then None
    else if SortKey(names[0]).Failure? then Some(SortKey(names[0]).error)
    else
      var e := FirstKeyError(names[1..]);
      assert forall k :: 1 <= k < |names| ==> names[k] == names[1..][k - 1];
      e
  }

  /** `sorted(os.listdir(FRAMES_DIR), key=lambda x: int(x.split('_')[1].split('.')[0]))`:
      Python computes every key first, so one bad name makes the whole call
      raise; otherwise the result is the listing reordered by ascending key. */
  function SortFrames(listing: seq<string>): (r: Result<seq<string>, PyError>)
    ensures r.Success? <==> forall k :: 0 <= k < |listing| ==> SortKey(listing[k]).Success?
    ensures r.Failure? ==> exists k :: 0 <= k < |listing| && SortKey(listing[k]) == Failure(r.error)
                                 && forall k' :: 0 <= k' < k ==> SortKey(listing[k']).Success?
    ensures r.Success? ==> SortedBy(Key, r.value) && multiset(r.value) == multiset(listing)
  {
    match FirstKeyError(listing)
    case Some(e) => Failure(e)
    case None => Success(InsertionSort(Key, listing))
  }

  /** With two bad names, the exception is the first one's: "ab" has no
      underscore (IndexError) although "x_y" would raise ValueError. */
  lemma FirstFailureWins()
    ensures SortKey("x_y") == Failure(ValueError)
    ensures SortFrames(["ab", "x_y"]) == Failure(IndexError)
  {
    SplitAtFirstSep("x", '_', "y");
    SplitWithoutSep("y", '_');
    SplitWithoutSep("y", '.');
    assert !IsDigit('y');
    var listing := ["ab", "x_y"];
    assert SortKey(listing[0]) == Failure(IndexError);
  }

  /** Whatever order the directory lists `frame_0.jpg` … `frame_{m-1}.jpg`
      in, sorting by the key yields them in ascending numeric order. */
  lemma SortFramesOfListing(listing: seq<string>, m: nat)
    requires multiset(listing) == multiset(Frames(m))
    ensures SortFrames(listing) == Success(Frames(m))
  {
    var frames := Frames(m);
    forall j | 0 <= j < m
      ensures SortKey(frames[j]) == Success(j)
    {
      SortKeyOfFrameName(j);
    }
    forall k | 0 <= k < |listing|
      ensures SortKey(listing[k]).Success?
    {
      assert listing[k] in multiset(frames);
    }
    var sorted := SortFrames(listing).value;
    forall i, j | 0 <= i < |sorted| && 0 <= j < |sorted| && Key(sorted[i]) == Key(sorted[j])
      ensures sorted[i] == sorted[j]
    {
      assert sorted[i] in multiset(frames) && sorted[j] in multiset(frames);
    }
    SortedPermutationsAgree(Key, sorted, frames);
  }

  /** Python's `<` on strings: code-point lexicographic order. */
  predicate LexLess(a: string, b: string)
  {
    b != [] && (a == [] || a[0] < b[0] || (a[0] == b[0] && LexLess(a[1..], b[1..])))
  }

  /** `frame_10.jpg` sorts before `frame_9.jpg` as text: they first differ at '1' < '9'. */
  lemma TenBeforeNineAsText()
    ensures LexLess("frame_10.jpg", "frame_9.jpg")
  {
  }

  lemma FrameNamesOfNineAndTen()
    ensures FrameName(9) == "frame_9.jpg" && FrameName(10) == "frame_10.jpg"
  {
  }

  /** The key orders `frame_9.jpg` before `frame_10.jpg`, whereas plain name
      order would put `frame_10.jpg` first. */
  lemma NumericNotLexicographic()
    ensures Key(FrameName(9)) < Key(FrameName(10))
    ensures LexLess(FrameName(10), FrameName(9))
  {
    SortKeyOfFrameName(9);
    SortKeyOfFrameName(10);
    FrameNamesOfNineAndTen();
    TenBeforeNineAsText();
  }
}
