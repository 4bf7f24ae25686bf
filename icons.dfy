/**
 * The icon search of src/config.rs over an abstract file system: for each
 * directory, in order, the entries a recursive walk of it yields, and the
 * first of them that is an icon for the wanted name.
 */
module Icons {
  import opened Wrappers
  import opened Common
  import opened Paths

  /** For each directory the walk can read, the paths it yields in walk
      order: the directory itself, then everything below it. Entries the walk
      reports as errors are not listed, and a directory that cannot be read
      is absent. */
  type Listing = map<Path, seq<Path>>

  function Walk(fs: Listing, dir: Path): seq<Path>
  {
    if dir in fs then fs[dir] else []
  }

  /** Every walked entry of every directory, in the order they are tried. */
  function Candidates(fs: Listing, dirs: seq<Path>): seq<Path>
  {
    if dirs == [] then []
    else Candidates(fs, dirs[..|dirs| - 1]) + Walk(fs, dirs[|dirs| - 1])
  }

  /** The first element of `xs` that passes `test`. */
  function FirstWhere<T>(xs: seq<T>, test: T -> bool): Option<T>
  {
    if xs == [] then None
    else if test(xs[0]) then Some(xs[0])
    else FirstWhere(xs[1..], test)
  }

  /** Nothing is found exactly when no element passes. */
  lemma {:induction false} FirstWhereNone<T>(xs: seq<T>, test: T -> bool)
    ensures FirstWhere(xs, test).None? <==> forall i :: 0 <= i < |xs| ==> !test(xs[i])
  {
    if xs != [] && !test(xs[0]) {
      var tail := xs[1..];
      FirstWhereNone(tail, test);
      if FirstWhere(tail, test).None? {
        forall i | 0 < i < |xs|
          ensures !test(xs[i])
        {
          assert xs[i] == tail[i - 1];
        }
      } else {
        var k :| 0 <= k < |tail| && test(tail[k]);
        assert xs[k + 1] == tail[k];
      }
    }
  }

  /** What is found passes, and nothing before it does. */
  lemma {:induction false} FirstWhereFound<T>(xs: seq<T>, test: T -> bool)
    requires FirstWhere(xs, test).Some?
    ensures exists i :: 0 <= i < |xs| && xs[i] == FirstWhere(xs, test).value && test(xs[i]) &&
                        forall j :: 0 <= j < i ==> !test(xs[j])
  {
    if test(xs[0]) {
      assert xs[0] == FirstWhere(xs, test).value;
    } else {
      var tail := xs[1..];
      FirstWhereFound(tail, test);
      var i :| 0 <= i < |tail| && tail[i] == FirstWhere(tail, test).value && test(tail[i]) &&
               forall j :: 0 <= j < i ==> !test(tail[j]);
      assert xs[i + 1] == tail[i];
      forall j | 0 < j < i + 1
        ensures !test(xs[j])
      {
        assert xs[j] == tail[j - 1];
      }
    }
  }

  /** A passing element with none passing before it is the one found. */
  lemma {:induction false} FirstWhereAt<T>(xs: seq<T>, test: T -> bool, i: nat)
    requires i < |xs| && test(xs[i])
    requires forall j :: 0 <= j < i ==> !test(xs[j])
    ensures FirstWhere(xs, test) == Some(xs[i])
  {
    if i > 0 {
      var tail := xs[1..];
      forall j | 0 <= j < i - 1
        ensures !test(tail[j])
      {
        assert tail[j] == xs[j + 1];
      }
      FirstWhereAt(tail, test, i - 1);
    }
  }

  /** Over a concatenation, the first part is searched to its end before
      the second. */
  lemma {:induction false} FirstWhereAppend<T>(a: seq<T>, b: seq<T>, test: T -> bool)
    ensures FirstWhere(a + b, test) ==
            if FirstWhere(a, test).Some? then FirstWhere(a, test) else FirstWhere(b, test)
  {
    if a == [] {
      assert a + b == b;
    } else {
      assert (a + b)[0] == a[0];
      assert (a + b)[1..] == a[1..] + b;
      FirstWhereAppend(a[1..], b, test);
    }
  }

  /** The icon test for one name, as a predicate on paths. */
  function IconTest(name: string): Path -> bool
  {
    p => IsIconFor(p, name)
  }

  /** The reference for the search: the first icon for `name` in `ps`. */
  function FirstIcon(ps: seq<Path>, name: string): Option<Path>
  {
    FirstWhere(ps, IconTest(name))
  }

  /** What the search finds: nothing exactly when no entry is an icon for
      `name`, and otherwise an entry that is one, with none before it. */
  lemma FirstIconMeaning(ps: seq<Path>, name: string)
    ensures FirstIcon(ps, name).None? <==> forall i :: 0 <= i < |ps| ==> !IsIconFor(ps[i], name)
    ensures FirstIcon(ps, name).Some? ==>
              exists i :: 0 <= i < |ps| && ps[i] == FirstIcon(ps, name).value && IsIconFor(ps[i], name) &&
                          forall j :: 0 <= j < i ==> !IsIconFor(ps[j], name)
  {
    FirstWhereNone(ps, IconTest(name));
    if FirstIcon(ps, name).Some? {
      FirstWhereFound(ps, IconTest(name));
    }
  }

  lemma {:induction false} CandidatesAppend(fs: Listing, a: seq<Path>, b: seq<Path>)
    ensures Candidates(fs, a + b) == Candidates(fs, a) + Candidates(fs, b)
    decreases |b|
  {
    if b == [] {
      assert a + b == a;
    } else {
      assert (a + b)[..|a + b| - 1] == a + b[..|b| - 1];
      CandidatesAppend(fs, a, b[..|b| - 1]);
    }
  }

  /** The candidates seen around directory `d`. */
  lemma CandidatesAround(fs: Listing, dirs: seq<Path>, d: nat)
    requires d < |dirs|
    ensures Candidates(fs, dirs) ==
            Candidates(fs, dirs[..d]) + Walk(fs, dirs[d]) + Candidates(fs, dirs[d + 1..])
  {
    CandidatesAppend(fs, dirs[..d + 1], dirs[d + 1..]);
    assert dirs[..d + 1] + dirs[d + 1..] == dirs;
    assert dirs[..d + 1][..d] == dirs[..d];
  }

  /** When nothing in the first `d` directories is an icon for `name` and
      the walk of directory `d` holds one, the search returns the first icon
      of that walk, whatever the later directories hold. */
  lemma FoundInDirectory(fs: Listing, dirs: seq<Path>, name: string, d: nat)
    requires d < |dirs|
    requires FirstIcon(Candidates(fs, dirs[..d]), name).None?
    requires FirstIcon(Walk(fs, dirs[d]), name).Some?
    ensures FirstIcon(Candidates(fs, dirs), name) == FirstIcon(Walk(fs, dirs[d]), name)
  {
    var before := Candidates(fs, dirs[..d]);
    var here := Walk(fs, dirs[d]);
    var after := Candidates(fs, dirs[d + 1..]);
    CandidatesAround(fs, dirs, d);
    FirstWhereAppend(before, here, IconTest(name));
    FirstWhereAppend(before + here, after, IconTest(name));
  }

  /** The inner loop of `search_for_icon`: the walked entries of one
      directory, in order, up to the first icon for `name`. */
  method SearchWalk(name: string, entries: seq<Path>) returns (r: Option<Path>)
    ensures r == FirstIcon(entries, name)
  {
    ghost var test := IconTest(name);
    for e := 0 to |entries|
      invariant forall j :: 0 <= j < e ==> !test(entries[j])
    {
      if IsIconFor(entries[e], name) {
        FirstWhereAt(entries, IconTest(name), e);
        return Some(entries[e]);
      }
    }
    FirstWhereNone(entries, IconTest(name));
    return None;
  }

  /** `search_for_icon`: every directory in order, every walked entry in
      order, returning the first icon for `name`. */
  method SearchForIcon(name: string, dirs: seq<Path>, fs: Listing) returns (r: Option<Path>)
    ensures r == FirstIcon(Candidates(fs, dirs), name)
  {
    for d := 0 to |dirs|
      invariant FirstIcon(Candidates(fs, dirs[..d]), name).None?
    {
      var found := SearchWalk(name, Walk(fs, dirs[d]));
      if found.Some? {
        FoundInDirectory(fs, dirs, name, d);
        return found;
      }
      assert dirs[..d + 1][..d] == dirs[..d];
      FirstWhereAppend(Candidates(fs, dirs[..d]), Walk(fs, dirs[d]), IconTest(name));
    }
    assert dirs[..|dirs|] == dirs;
    return None;
  }
}
