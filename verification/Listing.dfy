/**
  The directory walk both file scanners start from: os.walk from the top down, without
  following links, and one joined path per file.
*/
module Listing {
  import opened Options
  import opened LogText

  datatype Dir = Dir(files: seq<string>, subs: seq<Sub>)
  datatype Sub = Sub(name: string, link: bool, dir: Dir)

  // os.path.join for a directory and a name.
  function JoinPath(root: string, name: string): string {
    if name != "" && name[0] == '/' then name
    else if root == "" || root[|root| - 1] == '/' then root + name
    else root + "/" + name
  }

  function JoinAll(root: string, names: seq<string>): (r: seq<string>)
    ensures |r| == |names| && forall i :: 0 <= i < |r| ==> r[i] == JoinPath(root, names[i])
  {
    seq(|names|, i requires 0 <= i < |names| => JoinPath(root, names[i]))
  }

  // What os.walk yields: a root and the names of its files.
  datatype Item = Item(root: string, files: seq<string>)

  function WalkFrom(root: string, d: Dir): seq<Item>
    decreases d, |d.subs| + 1
  {
    [Item(root, d.files)] + WalkSubs(root, d, 0)
  }

  function WalkSubs(root: string, d: Dir, i: nat): seq<Item>
    requires i <= |d.subs|
    decreases d, |d.subs| - i
  {
    if i == |d.subs| then []
    else
      var sub := d.subs[i];
      (if sub.link then [] else WalkFrom(JoinPath(root, sub.name), sub.dir)) + WalkSubs(root, d, i + 1)
  }

  function Flatten(items: seq<Item>): seq<string> {
    if items == [] then [] else JoinAll(items[0].root, items[0].files) + Flatten(items[1..])
  }

  // get_dir_files(path, getSubFiles); the walk of what is not a directory yields nothing.
  function ListFiles(root: string, d: Option<Dir>, all: bool): seq<string> {
    if d == None then []
    else if all then Flatten(WalkFrom(root, d.value))
    else JoinAll(root, d.value.files)
  }

  method GetDirFiles(root: string, d: Option<Dir>, getSubFiles: bool) returns (results: seq<string>)
    ensures results == ListFiles(root, d, getSubFiles)
  {
    results := [];
    var items := if d == None then [] else WalkFrom(root, d.value);
    var i := 0;
    while i < |items|
      invariant 0 <= i <= |items|
      invariant results + Flatten(items[i..]) == Flatten(items)
      invariant !getSubFiles ==> i == 0 && results == []
    {
      ghost var before := results;
      results := AppendFiles(results, items[i]);
      Regroup(before, JoinAll(items[i].root, items[i].files), Flatten(items[i + 1..]));
      if !getSubFiles {
        return;
      }
      i := i + 1;
    }
  }

  // The inner loop, over the files of one directory.
  method AppendFiles(before: seq<string>, item: Item) returns (results: seq<string>)
    ensures results == before + JoinAll(item.root, item.files)
  {
    results := before;
    var j := 0;
    while j < |item.files|
      invariant 0 <= j <= |item.files|
      invariant results == before + JoinAll(item.root, item.files)[..j]
    {
      results := results + [JoinPath(item.root, item.files[j])];
      j := j + 1;
    }
  }

  // ------------------------------------------------------------------
  // An independent account of what a directory contains
  // ------------------------------------------------------------------

  predicate ValidName(name: string) {
    name != "" && '/' !in name
  }

  // No two entries of a directory share a name, all the way down.
  predicate WellNamed(d: Dir)
    decreases d
  {
    && (forall f :: f in d.files ==> ValidName(f))
    && (forall i, j :: 0 <= i < j < |d.files| ==> d.files[i] != d.files[j])
    && (forall i, j :: 0 <= i < j < |d.subs| ==> d.subs[i].name != d.subs[j].name)
    && (forall i :: 0 <= i < |d.subs| ==> ValidName(d.subs[i].name) && WellNamed(d.subs[i].dir))
  }

  // The path components lead from d to a file, through real directories only.
  predicate FileAt(d: Dir, comps: seq<string>)
    decreases |comps|
  {
    if |comps| == 0 then false
    else if |comps| == 1 then comps[0] in d.files
    else exists i {:trigger d.subs[i]} ::
        0 <= i < |d.subs| && d.subs[i].name == comps[0] && !d.subs[i].link && FileAt(d.subs[i].dir, comps[1..])
  }

  function PathOf(root: string, comps: seq<string>): string
    decreases |comps|
  {
    if comps == [] then root else PathOf(JoinPath(root, comps[0]), comps[1..])
  }

  // The components of every file below d, in the order of the walk.
  function Comps(d: Dir): seq<seq<string>>
    decreases d, |d.subs| + 1
  {
    Singles(d.files) + CompsOfSubs(d, 0)
  }

  function Singles(names: seq<string>): (r: seq<seq<string>>)
    ensures |r| == |names| && forall i :: 0 <= i < |r| ==> r[i] == [names[i]]
  {
    seq(|names|, i requires 0 <= i < |names| => [names[i]])
  }

  function Under(name: string, comps: seq<seq<string>>): (r: seq<seq<string>>)
    ensures |r| == |comps| && forall i :: 0 <= i < |r| ==> r[i] == [name] + comps[i]
  {
    seq(|comps|, i requires 0 <= i < |comps| => [name] + comps[i])
  }

  function CompsOfSubs(d: Dir, i: nat): seq<seq<string>>
    requires i <= |d.subs|
    decreases d, |d.subs| - i
  {
    if i == |d.subs| then []
    else (if d.subs[i].link then [] else Under(d.subs[i].name, Comps(d.subs[i].dir))) + CompsOfSubs(d, i + 1)
  }

  function Paths(root: string, comps: seq<seq<string>>): (r: seq<string>)
    ensures |r| == |comps| && forall i :: 0 <= i < |r| ==> r[i] == PathOf(root, comps[i])
  {
    seq(|comps|, i requires 0 <= i < |comps| => PathOf(root, comps[i]))
  }

  // ------------------------------------------------------------------
  // The walk visits those components
  // ------------------------------------------------------------------

  lemma {:induction false} FlattenAppends(a: seq<Item>, b: seq<Item>)
    ensures Flatten(a + b) == Flatten(a) + Flatten(b)
  {
    if a == [] {
      assert a + b == b;
    } else {
      FlattenAppends(a[1..], b);
      assert (a + b)[1..] == a[1..] + b && (a + b)[0] == a[0];
      Regroup(JoinAll(a[0].root, a[0].files), Flatten(a[1..]), Flatten(b));
    }
  }

  lemma FlattenFirst(item: Item, items: seq<Item>)
    ensures Flatten([item] + items) == JoinAll(item.root, item.files) + Flatten(items)
  {
    assert ([item] + items)[1..] == items;
  }

  lemma {:induction false} WalkVisits(root: string, d: Dir)
    ensures Flatten(WalkFrom(root, d)) == Paths(root, Comps(d))
    decreases d, |d.subs| + 1
  {
    FlattenFirst(Item(root, d.files), WalkSubs(root, d, 0));
    WalkVisitsSubs(root, d, 0);
    PathsOfSingles(root, d.files);
    PathsAppend(root, Singles(d.files), CompsOfSubs(d, 0));
  }

  lemma {:induction false} WalkVisitsSubs(root: string, d: Dir, i: nat)
    requires i <= |d.subs|
    ensures Flatten(WalkSubs(root, d, i)) == Paths(root, CompsOfSubs(d, i))
    decreases d, |d.subs| - i
  {
    if i < |d.subs| {
      var sub := d.subs[i];
      WalkVisitsSubs(root, d, i + 1);
      if sub.link {
        assert [] + WalkSubs(root, d, i + 1) == WalkSubs(root, d, i + 1);
        assert [] + CompsOfSubs(d, i + 1) == CompsOfSubs(d, i + 1);
      } else {
        FlattenAppends(WalkFrom(JoinPath(root, sub.name), sub.dir), WalkSubs(root, d, i + 1));
        WalkVisits(JoinPath(root, sub.name), sub.dir);
        PathsUnder(root, sub.name, Comps(sub.dir));
        PathsAppend(root, Under(sub.name, Comps(sub.dir)), CompsOfSubs(d, i + 1));
      }
    }
  }

  lemma PathsAppend(root: string, a: seq<seq<string>>, b: seq<seq<string>>)
    ensures Paths(root, a + b) == Paths(root, a) + Paths(root, b)
  {
  }

  lemma PathsOfSingles(root: string, names: seq<string>)
    ensures Paths(root, Singles(names)) == JoinAll(root, names)
  {
    forall i | 0 <= i < |names|
      ensures PathOf(root, [names[i]]) == JoinPath(root, names[i])
    {
      assert [names[i]][1..] == [];
    }
  }

  lemma PathsUnder(root: string, name: string, comps: seq<seq<string>>)
    ensures Paths(root, Under(name, comps)) == Paths(JoinPath(root, name), comps)
  {
    forall i | 0 <= i < |comps|
      ensures PathOf(root, Under(name, comps)[i]) == PathOf(JoinPath(root, name), comps[i])
    {
      assert Under(name, comps)[i][1..] == comps[i];
    }
  }

  lemma UnderMember(name: string, inner: seq<seq<string>>, comps: seq<string>)
    ensures comps in Under(name, inner) <==> comps != [] && comps[0] == name && comps[1..] in inner
  {
    if comps in Under(name, inner) {
      var k :| 0 <= k < |inner| && Under(name, inner)[k] == comps;
      assert comps[1..] == inner[k];
    }
    if comps != [] {
      assert comps == [comps[0]] + comps[1..];
    }
  }

  lemma SinglesMember(names: seq<string>, comps: seq<string>)
    ensures comps in Singles(names) <==> |comps| == 1 && comps[0] in names
  {
    if |comps| == 1 && comps[0] in names {
      var k :| 0 <= k < |names| && names[k] == comps[0];
      assert Singles(names)[k] == comps;
    }
  }

  lemma {:induction false} CompsAreFiles(d: Dir, comps: seq<string>)
    ensures comps in Comps(d) <==> FileAt(d, comps)
    decreases d, |d.subs| + 1
  {
    SinglesMember(d.files, comps);
    CompsOfSubsAreFiles(d, 0, comps);
  }

  ghost predicate FileInSubs(d: Dir, i: nat, comps: seq<string>) {
    |comps| > 1 && exists k :: i <= k < |d.subs| && InSub(d.subs[k], comps)
  }

  predicate InSub(sub: Sub, comps: seq<string>)
    requires |comps| > 1
  {
    sub.name == comps[0] && !sub.link && FileAt(sub.dir, comps[1..])
  }

  lemma {:induction false} CompsOfSubsAreFiles(d: Dir, i: nat, comps: seq<string>)
    requires i <= |d.subs|
    ensures comps in CompsOfSubs(d, i) <==> FileInSubs(d, i, comps)
    decreases d, |d.subs| - i
  {
    if i < |d.subs| {
      var sub := d.subs[i];
      CompsOfSubsAreFiles(d, i + 1, comps);
      UnderMember(sub.name, Comps(sub.dir), comps);
      if comps != [] {
        CompsAreFiles(sub.dir, comps[1..]);
      }
      assert FileInSubs(d, i, comps) <==> FileInSubs(d, i + 1, comps) || (|comps| > 1 && InSub(sub, comps));
    }
  }

  // ------------------------------------------------------------------
  // No path twice
  // ------------------------------------------------------------------

  predicate NoDuplicates<T(==)>(s: seq<T>) {
    forall i, j :: 0 <= i < j < |s| ==> s[i] != s[j]
  }

  ghost predicate AllValid(comps: seq<seq<string>>) {
    forall c :: c in comps ==> forall n :: n in c ==> ValidName(n)
  }

  lemma AppendDistinct<T>(a: seq<T>, b: seq<T>)
    requires NoDuplicates(a) && NoDuplicates(b) && forall x :: x in a ==> x !in b
    ensures NoDuplicates(a + b)
  {
    forall i, j | 0 <= i < j < |a + b|
      ensures (a + b)[i] != (a + b)[j]
    {
      assert i < |a| <= j ==> a[i] in a && b[j - |a|] in b;
    }
  }

  lemma UnderDistinct(name: string, comps: seq<seq<string>>)
    requires NoDuplicates(comps) && AllValid(comps) && ValidName(name)
    ensures NoDuplicates(Under(name, comps)) && AllValid(Under(name, comps))
  {
    var under := Under(name, comps);
    forall i, j | 0 <= i < j < |under|
      ensures under[i] != under[j]
    {
      assert under[i][1..] == comps[i] && under[j][1..] == comps[j];
    }
    forall c | c in under
      ensures forall n :: n in c ==> ValidName(n)
    {
      UnderMember(name, comps, c);
      assert c == [c[0]] + c[1..];
    }
  }

  lemma {:induction false} CompsDistinct(d: Dir)
    requires WellNamed(d)
    ensures NoDuplicates(Comps(d)) && AllValid(Comps(d))
    decreases d, |d.subs| + 1
  {
    CompsOfSubsDistinct(d, 0);
    forall c | c in CompsOfSubs(d, 0)
      ensures c !in Singles(d.files)
    {
      CompsOfSubsAreFiles(d, 0, c);
    }
    AppendDistinct(Singles(d.files), CompsOfSubs(d, 0));
  }

  lemma {:induction false} CompsOfSubsDistinct(d: Dir, i: nat)
    requires WellNamed(d) && i <= |d.subs|
    ensures NoDuplicates(CompsOfSubs(d, i)) && AllValid(CompsOfSubs(d, i))
    decreases d, |d.subs| - i
  {
    if i < |d.subs| {
      var sub, later := d.subs[i], CompsOfSubs(d, i + 1);
      CompsOfSubsDistinct(d, i + 1);
      if sub.link {
        assert [] + later == later;
      } else {
        CompsDistinct(sub.dir);
        UnderDistinct(sub.name, Comps(sub.dir));
        var here := Under(sub.name, Comps(sub.dir));
        forall c | c in here
          ensures c !in later
        {
          UnderMember(sub.name, Comps(sub.dir), c);
          CompsOfSubsAreFiles(d, i + 1, c);
        }
        AppendDistinct(here, later);
      }
    }
  }

  function Base(root: string): string {
    if root == "" || root[|root| - 1] == '/' then root else root + "/"
  }

  lemma {:induction false} PathIsJoin(root: string, comps: seq<string>)
    requires comps != [] && forall n :: n in comps ==> ValidName(n)
    ensures PathOf(root, comps) == Base(root) + Join(comps, '/')
    decreases |comps|
  {
    assert ValidName(comps[0]);
    var root' := JoinPath(root, comps[0]);
    assert root' == Base(root) + comps[0];
    if |comps| == 1 {
      assert comps[1..] == [];
    } else {
      PathIsJoin(root', comps[1..]);
      assert root'[|root'| - 1] == comps[0][|comps[0]| - 1] != '/';
      assert root' + "/" + Join(comps[1..], '/') == Base(root) + (comps[0] + "/" + Join(comps[1..], '/'));
    }
  }

  lemma PathInjective(root: string, a: seq<string>, b: seq<string>)
    requires a != [] && b != [] && forall n :: n in a + b ==> ValidName(n)
    requires PathOf(root, a) == PathOf(root, b)
    ensures a == b
  {
    assert forall n :: n in a || n in b ==> n in a + b;
    PathIsJoin(root, a);
    PathIsJoin(root, b);
    assert Join(a, '/') == PathOf(root, a)[|Base(root)|..] == Join(b, '/');
    assert a[|a| - 1] in a && b[|b| - 1] in b;
    JoinInjective(a, b, '/');
  }

  lemma PathsDistinct(root: string, comps: seq<seq<string>>)
    requires NoDuplicates(comps) && AllValid(comps) && forall c :: c in comps ==> c != []
    ensures NoDuplicates(Paths(root, comps))
  {
    var paths := Paths(root, comps);
    forall i, j | 0 <= i < j < |paths|
      ensures paths[i] != paths[j]
    {
      assert comps[i] in comps && comps[j] in comps;
      if paths[i] == paths[j] {
        PathInjective(root, comps[i], comps[j]);
      }
    }
  }

  lemma InPaths(root: string, comps: seq<seq<string>>, p: string)
    ensures p in Paths(root, comps) <==> exists c :: c in comps && PathOf(root, c) == p
  {
    if p in Paths(root, comps) {
      var k :| 0 <= k < |comps| && Paths(root, comps)[k] == p;
      assert comps[k] in comps;
    }
    if c :| c in comps && PathOf(root, c) == p {
      var k :| 0 <= k < |comps| && comps[k] == c;
      assert Paths(root, comps)[k] == p;
    }
  }

  // p is the path, from root, of a file below d.
  ghost predicate IsFilePath(root: string, d: Dir, p: string) {
    exists c :: FileAt(d, c) && PathOf(root, c) == p
  }

  // Main result: the recursive listing contains the path of every file below the directory,
  // nothing else, and none twice.
  lemma ListingExact(root: string, d: Dir)
    requires WellNamed(d)
    ensures NoDuplicates(ListFiles(root, Some(d), true))
    ensures forall p :: p in ListFiles(root, Some(d), true) <==> IsFilePath(root, d, p)
  {
    WalkVisits(root, d);
    CompsDistinct(d);
    forall c | c in Comps(d)
      ensures c != []
    {
      CompsAreFiles(d, c);
    }
    PathsDistinct(root, Comps(d));
    forall p
      ensures p in ListFiles(root, Some(d), true) <==> IsFilePath(root, d, p)
    {
      ListingMember(root, d, p);
    }
  }

  lemma ListingMember(root: string, d: Dir, p: string)
    ensures p in ListFiles(root, Some(d), true) <==> IsFilePath(root, d, p)
  {
    WalkVisits(root, d);
    forall c
      ensures c in Comps(d) <==> FileAt(d, c)
    {
      CompsAreFiles(d, c);
    }
    InPaths(root, Comps(d), p);
    if p in ListFiles(root, Some(d), true) {
      var c :| c in Comps(d) && PathOf(root, c) == p;
      assert FileAt(d, c);
    }
    if IsFilePath(root, d, p) {
      var c :| FileAt(d, c) && PathOf(root, c) == p;
      assert c in Comps(d);
    }
  }

  // Main result for the listing without subdirectories: the paths of the directory's own
  // files, in their order, all of them and none twice; what is no directory has none.
  lemma TopListingExact(root: string, d: Dir)
    ensures var files := ListFiles(root, Some(d), false);
            && |files| == |d.files| && (forall i :: 0 <= i < |files| ==> files[i] == PathOf(root, [d.files[i]]))
            && (WellNamed(d) ==> NoDuplicates(files))
            && (forall p :: p in files <==> exists f :: f in d.files && p == PathOf(root, [f]))
    ensures ListFiles(root, None, false) == ListFiles(root, None, true) == []
  {
    var files := ListFiles(root, Some(d), false);
    forall f
      ensures PathOf(root, [f]) == JoinPath(root, f)
    {
      PathOfOne(root, f);
    }
    if WellNamed(d) {
      TopDistinct(root, d);
    }
    forall p
      ensures p in files <==> exists f :: f in d.files && p == PathOf(root, [f])
    {
      if f :| f in d.files && p == PathOf(root, [f]) {
        var i :| 0 <= i < |d.files| && d.files[i] == f;
        assert files[i] == p;
      }
      if p in files {
        var i :| 0 <= i < |files| && files[i] == p;
        assert d.files[i] in d.files;
      }
    }
  }

  lemma PathOfOne(root: string, f: string)
    ensures PathOf(root, [f]) == JoinPath(root, f)
  {
    assert [f][1..] == [];
  }

  lemma TopDistinct(root: string, d: Dir)
    requires WellNamed(d)
    ensures NoDuplicates(ListFiles(root, Some(d), false))
  {
    var files := ListFiles(root, Some(d), false);
    forall i, j | 0 <= i < j < |files|
      ensures files[i] != files[j]
    {
      var a, b := d.files[i], d.files[j];
      assert a in d.files && b in d.files && ValidName(a) && ValidName(b);
      PathOfOne(root, a);
      PathOfOne(root, b);
      if files[i] == files[j] {
        DifferentPaths(root, a, b);
      }
    }
  }

  lemma DifferentPaths(root: string, a: string, b: string)
    requires ValidName(a) && ValidName(b) && PathOf(root, [a]) == PathOf(root, [b])
    ensures a == b
  {
    assert forall n :: n in [a] + [b] ==> n == a || n == b;
    PathInjective(root, [a], [b]);
    assert [a][0] == [b][0];
  }

  // The recursive listing of the subdirectories from the i-th on.
  function Below(root: string, d: Dir, i: nat): seq<string>
    requires i <= |d.subs|
  {
    Flatten(WalkSubs(root, d, i))
  }

  // The order of the walk: the directory's own files, then each subdirectory that is no link,
  // with all that is below it.
  lemma ListingOrder(root: string, d: Dir)
    ensures ListFiles(root, Some(d), true) == ListFiles(root, Some(d), false) + Below(root, d, 0)
    ensures Below(root, d, |d.subs|) == []
    ensures forall i :: 0 <= i < |d.subs| ==>
              Below(root, d, i)
              == (if d.subs[i].link then []
                  else ListFiles(JoinPath(root, d.subs[i].name), Some(d.subs[i].dir), true)) + Below(root, d, i + 1)
  {
    FlattenFirst(Item(root, d.files), WalkSubs(root, d, 0));
    forall i | 0 <= i < |d.subs|
      ensures Below(root, d, i)
              == (if d.subs[i].link then []
                  else ListFiles(JoinPath(root, d.subs[i].name), Some(d.subs[i].dir), true)) + Below(root, d, i + 1)
    {
      if d.subs[i].link {
        assert WalkSubs(root, d, i) == WalkSubs(root, d, i + 1);
      } else {
        FlattenAppends(WalkFrom(JoinPath(root, d.subs[i].name), d.subs[i].dir), WalkSubs(root, d, i + 1));
      }
    }
  }

  // The listing of the top directory alone is a prefix of the recursive one.
  lemma {:induction false} TopIsPrefix(root: string, d: Option<Dir>)
    ensures ListFiles(root, d, false) <= ListFiles(root, d, true)
  {
    if d.Some? {
      FlattenFirst(Item(root, d.value.files), WalkSubs(root, d.value, 0));
    }
  }
}
