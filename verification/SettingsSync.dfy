/** Writing the generated files, or checking that they are up to date. */
module SettingsSync {
  /** A missing file reads as empty. */
  function Read(disk: map<string, string>, path: string): string {
    if path in disk then disk[path] else ""
  }

  /** A generated file and its expected content. */
  datatype Page = Page(path: string, content: string)

  predicate UpToDate(disk: map<string, string>, pages: seq<Page>) {
    forall p :: p in pages ==> Read(disk, p.path) == p.content
  }

  predicate DistinctPaths(pages: seq<Page>) {
    forall i, j :: 0 <= i < j < |pages| ==> pages[i].path != pages[j].path
  }

  /** The pages whose file differs, in order. */
  function StalePaths(disk: map<string, string>, pages: seq<Page>): seq<string> {
    if pages == [] then []
    else
      var last := pages[|pages| - 1];
      StalePaths(disk, pages[..|pages| - 1]) + (if Read(disk, last.path) != last.content then [last.path] else [])
  }

  lemma {:induction false} StalePathsDiffer(disk: map<string, string>, pages: seq<Page>)
    ensures forall p :: p in StalePaths(disk, pages) <==>
              exists page <- pages :: page.path == p && Read(disk, p) != page.content
    ensures StalePaths(disk, pages) == [] <==> UpToDate(disk, pages)
  {
    if pages != [] {
      var init, last := pages[..|pages| - 1], pages[|pages| - 1];
      StalePathsDiffer(disk, init);
      assert forall page :: page in pages <==> page in init || page == last;
    }
  }

  /** A page is stale exactly when its file differs, or is missing and the page is not empty. */
  lemma StaleExactly(disk: map<string, string>, pages: seq<Page>, path: string)
    ensures path in StalePaths(disk, pages) <==>
            exists page <- pages :: page.path == path
              && if path in disk then disk[path] != page.content else page.content != ""
  {
    StalePathsDiffer(disk, pages);
  }

  /** The disk after writing each page that differs. */
  function Written(disk: map<string, string>, pages: seq<Page>): map<string, string> {
    if pages == [] then disk
    else
      var before, last := Written(disk, pages[..|pages| - 1]), pages[|pages| - 1];
      if Read(before, last.path) != last.content then before[last.path := last.content] else before
  }

  lemma {:induction false} WrittenElsewhere(disk: map<string, string>, pages: seq<Page>, path: string)
    requires forall page <- pages :: page.path != path
    ensures path in Written(disk, pages) <==> path in disk
    ensures Read(Written(disk, pages), path) == Read(disk, path)
  {
    if pages != [] {
      WrittenElsewhere(disk, pages[..|pages| - 1], path);
    }
  }

  /** Writing leaves every page up to date. */
  lemma {:induction false} WrittenIsUpToDate(disk: map<string, string>, pages: seq<Page>)
    requires DistinctPaths(pages)
    ensures UpToDate(Written(disk, pages), pages)
  {
    if pages != [] {
      var init, last := pages[..|pages| - 1], pages[|pages| - 1];
      assert pages == init + [last];
      WrittenIsUpToDate(disk, init);
      assert forall page <- init :: page.path != last.path;
    }
  }

  /** Writing touches no path but those of pages that differed. */
  lemma {:induction false} WrittenOnlyStale(disk: map<string, string>, pages: seq<Page>, path: string)
    requires DistinctPaths(pages) && path !in StalePaths(disk, pages)
    ensures path in Written(disk, pages) <==> path in disk
    ensures Read(Written(disk, pages), path) == Read(disk, path)
  {
    if pages != [] {
      var init, last := pages[..|pages| - 1], pages[|pages| - 1];
      WrittenOnlyStale(disk, init, path);
      if last.path == path {
        WrittenElsewhere(disk, init, path);
      }
    }
  }

  method Sync(check: bool, pages: seq<Page>, disk: map<string, string>)
    returns (code: int, after: map<string, string>, stale: seq<string>)
    requires DistinctPaths(pages)
    ensures stale == StalePaths(disk, pages)
    ensures after == if check then disk else Written(disk, pages)
    ensures code == if check && !UpToDate(disk, pages) then 1 else 0
  {
    stale, after := [], disk;
    for i := 0 to |pages|
      invariant stale == StalePaths(disk, pages[..i])
      invariant after == if check then disk else Written(disk, pages[..i])
    {
      var page := pages[i];
      assert pages[..i + 1][..i] == pages[..i];
      WrittenElsewhere(disk, pages[..i], page.path);
      if Read(after, page.path) != page.content {
        stale := stale + [page.path];
        if !check {
          after := after[page.path := page.content];
        }
      }
    }
    assert pages[..|pages|] == pages;
    StalePathsDiffer(disk, pages);
    code := if check && stale != [] then 1 else 0;
  }
}
