/** The file system as the walkers see it, and the two listing steps that
    both walkers apply to a directory before visiting it: `sorted(...)`
    followed by the comprehension that drops hidden names. */
module FileSystem {
  import opened Names

  /** A directory entry. `entries` is a directory's raw listing, in whatever
      order the host returns it; `Dir` stands for a name that the host
      classifies as a directory, `File` for every other name. */
  datatype FsEntry = Dir(name: string, entries: seq<FsEntry>) | File(name: string)

  ghost predicate SortedByName(s: seq<FsEntry>)
  {
    forall i, j :: 0 <= i < j < |s| ==> NameLe(s[i].name, s[j].name)
  }

  ghost predicate StrictlySortedByName(s: seq<FsEntry>)
  {
    forall i, j :: 0 <= i < j < |s| ==> NameLt(s[i].name, s[j].name)
  }

  /** No two entries of the listing share a name, as in any real directory. */
  ghost predicate DistinctNames(s: seq<FsEntry>)
  {
    forall i, j :: 0 <= i < j < |s| ==> s[i].name != s[j].name
  }

  /** Every directory of the tree below `e` lists distinct names. */
  ghost predicate WellFormed(e: FsEntry)
  {
    e.Dir? ==> DistinctNames(e.entries) && forall k :: 0 <= k < |e.entries| ==> WellFormed(e.entries[k])
  }

  /** One step of the sort: puts `e` in front of the first entry whose name
      is not smaller. */
  function Insert(e: FsEntry, s: seq<FsEntry>): (r: seq<FsEntry>)
    requires SortedByName(s)
    ensures SortedByName(r)
    ensures multiset(r) == multiset(s) + multiset{e}
    ensures StrictlySortedByName(s) && (forall x :: x in s ==> x.name != e.name) ==> StrictlySortedByName(r)
  {
    if s == [] then [e]
    else if NameLe(e.name, s[0].name) then
      InsertBefore(e, s); [e] + s
    else
      NameLeTotal(e.name, s[0].name);
      var tail := s[1..];
      assert SortedByName(tail);
      var rest := Insert(e, tail);
      InsertAfter(e, s, rest);
      [s[0]] + rest
  }

  /** `e` goes in front of a sorted `s` whose first name is not smaller. */
  lemma InsertBefore(e: FsEntry, s: seq<FsEntry>)
    requires SortedByName(s) && s != [] && NameLe(e.name, s[0].name)
    ensures SortedByName([e] + s)
    ensures StrictlySortedByName(s) && (forall x :: x in s ==> x.name != e.name) ==> StrictlySortedByName([e] + s)
  {
    var r := [e] + s;
    forall j | 0 < j < |r|
      ensures NameLe(e.name, r[j].name)
    {
      if j > 1 {
        NameLeTransitive(e.name, s[0].name, s[j - 1].name);
      }
    }
  }

  /** `s[0]` stays in front when `e` is inserted further on. */
  lemma InsertAfter(e: FsEntry, s: seq<FsEntry>, rest: seq<FsEntry>)
    requires SortedByName(s) && s != [] && NameLe(s[0].name, e.name) && !NameLe(e.name, s[0].name)
    requires SortedByName(rest) && multiset(rest) == multiset(s[1..]) + multiset{e}
    requires StrictlySortedByName(s[1..]) && (forall x :: x in s[1..] ==> x.name != e.name) ==> StrictlySortedByName(rest)
    ensures SortedByName([s[0]] + rest)
    ensures multiset([s[0]] + rest) == multiset(s) + multiset{e}
    ensures StrictlySortedByName(s) && (forall x :: x in s ==> x.name != e.name) ==> StrictlySortedByName([s[0]] + rest)
  {
    assert s == [s[0]] + s[1..];
    HeadBeforeRest(e, s, rest);
    ConsSorted(s[0], rest);
  }

  /** Every entry of the insertion into the tail sorts after `s[0]`. */
  lemma HeadBeforeRest(e: FsEntry, s: seq<FsEntry>, rest: seq<FsEntry>)
    requires SortedByName(s) && s != [] && NameLe(s[0].name, e.name) && !NameLe(e.name, s[0].name)
    requires multiset(rest) == multiset(s[1..]) + multiset{e}
    ensures forall x :: x in rest ==> NameLe(s[0].name, x.name)
    ensures StrictlySortedByName(s) ==> forall x :: x in rest ==> NameLt(s[0].name, x.name)
  {
    forall x | x in rest
      ensures NameLe(s[0].name, x.name) && (StrictlySortedByName(s) ==> s[0].name != x.name)
    {
      assert x in multiset(rest);
      if x != e {
        assert x in s[1..];
        var k :| 0 <= k < |s[1..]| && s[1..][k] == x;
        assert s[k + 1] == x;
      }
    }
  }

  /** An entry that sorts before all of a sorted listing can head it. */
  lemma ConsSorted(h: FsEntry, rest: seq<FsEntry>)
    requires SortedByName(rest) && forall x :: x in rest ==> NameLe(h.name, x.name)
    ensures SortedByName([h] + rest)
    ensures StrictlySortedByName(rest) && (forall x :: x in rest ==> NameLt(h.name, x.name)) ==> StrictlySortedByName([h] + rest)
  {
    var r := [h] + rest;
    forall j | 0 < j < |r|
      ensures r[j] in rest
    {
      assert r[j] == rest[j - 1];
    }
  }

  /** `sorted(listing)`, ordering entries by name. */
  function SortByName(s: seq<FsEntry>): (r: seq<FsEntry>)
    ensures SortedByName(r)
    ensures multiset(r) == multiset(s)
    ensures DistinctNames(s) ==> StrictlySortedByName(r)
  {
    if s == [] then []
    else
      var rest := SortByName(s[1..]);
      SortStep(s, rest);
      Insert(s[0], rest)
  }

  /** What the insertion of `s[0]` into the sorted tail needs: every entry of
      the tail came from `s[1..]`, so none shares `s[0]`'s name when `s` has
      distinct names. */
  lemma SortStep(s: seq<FsEntry>, rest: seq<FsEntry>)
    requires s != [] && multiset(rest) == multiset(s[1..])
    ensures multiset(s) == multiset(rest) + multiset{s[0]}
    ensures DistinctNames(s) ==> DistinctNames(s[1..]) && forall x :: x in rest ==> x.name != s[0].name
  {
    assert s == [s[0]] + s[1..];
    if DistinctNames(s) {
      forall x | x in rest ensures x.name != s[0].name {
        assert x in multiset(rest);
        var k :| 0 <= k < |s[1..]| && s[1..][k] == x;
        assert s[k + 1] == x;
      }
    }
  }

  /** `[e for e in entries if not e.startswith(".")]`. */
  function Visible(s: seq<FsEntry>): (r: seq<FsEntry>)
    ensures forall e :: e in r <==> e in s && !IsHidden(e.name)
    ensures |r| <= |s|
  {
    if s == [] then []
    else (if IsHidden(s[0].name) then [] else [s[0]]) + Visible(s[1..])
  }

  /** The filter distributes over concatenation: it keeps the relative order
      of the entries it keeps. */
  lemma {:induction false} VisibleAppend(a: seq<FsEntry>, b: seq<FsEntry>)
    ensures Visible(a + b) == Visible(a) + Visible(b)
  {
    if a != [] {
      assert (a + b)[1..] == a[1..] + b;
      VisibleAppend(a[1..], b);
    } else {
      assert a + b == b;
    }
  }

  /** Filtering a sorted listing leaves it sorted (strictly, if it was). */
  lemma {:induction false} VisibleKeepsOrder(s: seq<FsEntry>)
    ensures SortedByName(s) ==> SortedByName(Visible(s))
    ensures StrictlySortedByName(s) ==> StrictlySortedByName(Visible(s))
  {
    if s != [] {
      var tail := s[1..];
      VisibleKeepsOrder(tail);
      var rest := Visible(tail);
      if SortedByName(s) {
        HeadBeforeVisible(s);
        if !IsHidden(s[0].name) {
          ConsSorted(s[0], rest);
        }
      }
    }
  }

  /** What the filter keeps of the tail of a sorted listing sorts after its
      head. */
  lemma HeadBeforeVisible(s: seq<FsEntry>)
    requires s != [] && SortedByName(s)
    ensures forall x :: x in Visible(s[1..]) ==> NameLe(s[0].name, x.name)
    ensures StrictlySortedByName(s) ==> forall x :: x in Visible(s[1..]) ==> NameLt(s[0].name, x.name)
  {
    forall x | x in Visible(s[1..])
      ensures NameLe(s[0].name, x.name) && (StrictlySortedByName(s) ==> NameLt(s[0].name, x.name))
    {
      var k :| 0 <= k < |s[1..]| && s[1..][k] == x;
      assert s[k + 1] == x;
    }
  }

  /** The listing a walker visits for directory `dir`: sorted, then
      filtered. It holds exactly the directory's non-hidden entries. */
  function Kept(dir: FsEntry): (r: seq<FsEntry>)
    requires dir.Dir?
    ensures forall e :: e in r <==> e in dir.entries && !IsHidden(e.name)
  {
    var sorted := SortByName(dir.entries);
    assert forall e :: e in sorted <==> e in dir.entries by {
      forall e ensures e in sorted <==> e in dir.entries {
        assert e in sorted <==> e in multiset(sorted);
      }
    }
    Visible(sorted)
  }

  /** The kept listing is in name order, strictly so when the directory's
      names are distinct. */
  lemma KeptOrder(dir: FsEntry)
    requires dir.Dir?
    ensures SortedByName(Kept(dir))
    ensures DistinctNames(dir.entries) ==> StrictlySortedByName(Kept(dir))
  {
    VisibleKeepsOrder(SortByName(dir.entries));
  }
}
