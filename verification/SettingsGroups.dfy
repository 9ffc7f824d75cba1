/** Grouping the settings fields into runs of one section. */
module SettingsGroups {
  datatype Doc = Doc(name: string, section: string)

  datatype Group = Group(title: string, docs: seq<Doc>)

  function Ungrouped(groups: seq<Group>): seq<Doc> {
    if groups == [] then [] else groups[0].docs + Ungrouped(groups[1..])
  }

  /** Non-empty runs, each of one section, neighbours of different sections. */
  ghost predicate IsRunSplit(groups: seq<Group>) {
    && (forall g :: 0 <= g < |groups| ==> groups[g].docs != [])
    && (forall g, d :: 0 <= g < |groups| && d in groups[g].docs ==> d.section == groups[g].title)
    && (forall g :: 0 < g < |groups| ==> groups[g - 1].title != groups[g].title)
  }

  lemma {:induction false} UngroupedConcat(a: seq<Group>, b: seq<Group>)
    ensures Ungrouped(a + b) == Ungrouped(a) + Ungrouped(b)
  {
    if a == [] {
      assert a + b == b;
    } else {
      UngroupedConcat(a[1..], b);
      assert (a + b)[1..] == a[1..] + b;
      assert a[0].docs + (Ungrouped(a[1..]) + Ungrouped(b)) == a[0].docs + Ungrouped(a[1..]) + Ungrouped(b);
    }
  }

  lemma {:induction false} UngroupedOne(open: seq<Group>, g: Group)
    ensures Ungrouped(open + [g]) == Ungrouped(open) + g.docs
  {
    UngroupedConcat(open, [g]);
    assert Ungrouped([g]) == g.docs + Ungrouped([g][1..]);
  }

  /** Appending a document to the last run, or opening a run for it. */
  lemma {:induction false} RunSplitGrows(open: seq<Group>, last: Group, doc: Doc)
    requires IsRunSplit(open) && last.title == doc.section
    requires forall d :: d in last.docs ==> d.section == last.title
    requires open != [] ==> open[|open| - 1].title != last.title
    ensures IsRunSplit(open + [Group(last.title, last.docs + [doc])])
    ensures Ungrouped(open + [Group(last.title, last.docs + [doc])]) == Ungrouped(open) + last.docs + [doc]
  {
    UngroupedOne(open, Group(last.title, last.docs + [doc]));
    assert Ungrouped(open) + (last.docs + [doc]) == Ungrouped(open) + last.docs + [doc];
  }

  method Grouped(docs: seq<Doc>) returns (groups: seq<Group>)
    ensures IsRunSplit(groups) && Ungrouped(groups) == docs
  {
    groups := [];
    for i := 0 to |docs|
      invariant IsRunSplit(groups) && Ungrouped(groups) == docs[..i]
    {
      var doc := docs[i];
      var n := |groups|;
      assert docs[..i + 1] == docs[..i] + [doc];
      if groups == [] || groups[n - 1].title != doc.section {
        RunSplitGrows(groups, Group(doc.section, []), doc);
        groups := groups + [Group(doc.section, [] + [doc])];
      } else {
        var open, last := groups[..n - 1], groups[n - 1];
        assert groups == open + [last];
        UngroupedOne(open, last);
        RunSplitGrows(open, last, doc);
        groups := open + [Group(last.title, last.docs + [doc])];
      }
    }
    assert docs[..|docs|] == docs;
  }

  /** The first run of a split is the longest prefix of one section. */
  lemma {:induction false} FirstRun(groups: seq<Group>)
    requires IsRunSplit(groups) && groups != []
    ensures Ungrouped(groups) == groups[0].docs + Ungrouped(groups[1..]) && IsRunSplit(groups[1..])
    ensures 0 < |groups[0].docs| && groups[0].title == Ungrouped(groups)[0].section
    ensures forall i :: 0 <= i < |groups[0].docs| ==> Ungrouped(groups)[i].section == groups[0].title
    ensures groups[1..] != [] ==> Ungrouped(groups[1..]) != [] && Ungrouped(groups[1..])[0].section != groups[0].title
  {
    var g, rest := groups[0], groups[1..];
    assert forall i :: 0 <= i < |g.docs| ==> g.docs[i] in g.docs;
    assert forall i :: 0 <= i < |rest| ==> rest[i] == groups[i + 1];
    if rest != [] {
      assert rest[0].docs[0] in groups[1].docs;
      assert Ungrouped(rest) == rest[0].docs + Ungrouped(rest[1..]);
    }
  }

  /** A first run cannot be longer than another split's: the longer would swallow a change of section. */
  lemma {:induction false} FirstRunNotLonger(a: seq<Group>, b: seq<Group>)
    requires IsRunSplit(a) && IsRunSplit(b) && a != [] && b != [] && Ungrouped(a) == Ungrouped(b)
    ensures |a[0].docs| <= |b[0].docs|
  {
    FirstRun(a);
    FirstRun(b);
    var all, n := Ungrouped(a), |b[0].docs|;
    assert all[n..] == Ungrouped(b[1..]);
    assert b[1..] != [] ==> all[n] == all[n..][0];
    assert b[1..] == [] ==> n == |all|;
  }

  /** There is only one such split, so the grouping is determined by its contract. */
  lemma {:induction false} RunSplitUnique(a: seq<Group>, b: seq<Group>)
    requires IsRunSplit(a) && IsRunSplit(b) && Ungrouped(a) == Ungrouped(b)
    ensures a == b
  {
    if a == [] {
      if b != [] {
        FirstRun(b);
      }
    } else if b == [] {
      FirstRun(a);
    } else {
      FirstRun(a);
      FirstRun(b);
      FirstRunNotLonger(a, b);
      FirstRunNotLonger(b, a);
      var n := |a[0].docs|;
      assert a[0].docs == Ungrouped(a)[..n] && Ungrouped(a[1..]) == Ungrouped(a)[n..];
      assert b[0].docs == Ungrouped(b)[..n] && Ungrouped(b[1..]) == Ungrouped(b)[n..];
      RunSplitUnique(a[1..], b[1..]);
      assert a == [a[0]] + a[1..] && b == [b[0]] + b[1..];
    }
  }

  function Total(groups: seq<Group>): nat {
    if groups == [] then 0 else |groups[0].docs| + Total(groups[1..])
  }

  lemma {:induction false} TotalIsLength(groups: seq<Group>)
    ensures Total(groups) == |Ungrouped(groups)|
  {
    if groups != [] {
      TotalIsLength(groups[1..]);
    }
  }

  lemma {:induction false} TotalAppend(groups: seq<Group>, g: Group)
    ensures Total(groups + [g]) == Total(groups) + |g.docs|
  {
    if groups == [] {
      assert Total([g]) == |g.docs| + Total([g][1..]);
      assert [] + [g] == [g];
    } else {
      TotalAppend(groups[1..], g);
      assert (groups + [g])[1..] == groups[1..] + [g];
    }
  }

  /** The section counts printed in the reference page add up to the two declared totals. */
  lemma PrintedCountsAddUp(main: seq<Doc>, maintenance: seq<Doc>, groups: seq<Group>, title: string)
    requires IsRunSplit(groups) && Ungrouped(groups) == main
    ensures Total(groups + [Group(title, maintenance)]) == |main| + |maintenance|
  {
    TotalIsLength(groups);
    TotalAppend(groups, Group(title, maintenance));
  }
}
