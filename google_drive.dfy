/** The Google Drive backend's bookkeeping: the escaping of titles in
    search queries, the query itself and its pagination, the walk from
    the root to the target folder, and the per-name cache of the files in
    the target folder (`m_filecache`) that listing, upload, download and
    delete consult and update. The service's replies (the listing pages,
    the folders a search finds, the uploaded item) are inputs. */
module GoogleDrive {
  import opened Common

  const FolderMimeType: string := "application/vnd.google-apps.folder"

  /** EscapeTitleEntries: every ' becomes \'. */
  function EscapeTitle(title: string): (r: string)
    ensures |r| >= |title|
    ensures r == [] || r[0] != '\''
  {
    if title == [] then []
    else (if title[0] == '\'' then "\\'" else [title[0]]) + EscapeTitle(title[1..])
  }

  /** EscapeTitle is String.Replace("'", "\\'"). */
  lemma {:induction false} EscapeTitleReplaces(title: string)
    ensures EscapeTitle(title) == Join(SplitAll(title, '\''), "\\'")
  {
    if title != [] {
      SplitJoinStep(title, '\'', "\\'");
      EscapeTitleReplaces(title[1..]);
    }
  }

  /** Reading back an escaped title: \' stands for '. */
  function Unescape(s: string): string {
    if s == [] then []
    else if |s| >= 2 && s[0] == '\\' && s[1] == '\'' then "'" + Unescape(s[2..])
    else [s[0]] + Unescape(s[1..])
  }

  /** The escaping loses nothing: every title reads back as itself. */
  lemma {:induction false} EscapeTitleRoundTrip(title: string)
    ensures Unescape(EscapeTitle(title)) == title
  {
    if title != [] {
      EscapeTitleRoundTrip(title[1..]);
      var rest := EscapeTitle(title[1..]);
      if title[0] == '\'' {
        assert EscapeTitle(title) == "\\'" + rest;
        assert ("\\'" + rest)[2..] == rest;
      } else {
        assert EscapeTitle(title) == [title[0]] + rest;
        assert ([title[0]] + rest)[1..] == rest;
      }
    }
  }

  /** The non-null search terms of ListFolderAsync, in order: the title
      (when a name is given), the folder/non-folder mime type (when
      `onlyFolders` is given), the parent and "trashed=false". */
  function Terms(name: Option<string>, onlyFolders: Option<bool>, parent: string): (terms: seq<string>)
    ensures |terms| == 2 + (if IsNullOrEmpty(name) then 0 else 1) + (if onlyFolders.None? then 0 else 1)
    ensures terms[|terms| - 1] == "trashed=false" && " and " + terms[|terms| - 1] == TrashedTerm
    ensures terms[|terms| - 2] == ParentTerm(parent)
    ensures onlyFolders == Some(true) ==> terms[|terms| - 3] == FolderTerm
    ensures onlyFolders == Some(false) ==> terms[|terms| - 3] == FileTerm
    ensures StartsWith(terms[0], TitleTerm) <==> !IsNullOrEmpty(name)
    ensures !IsNullOrEmpty(name) ==> terms[0] == TitleTerm + EscapeTitle(name.value) + "'"
  {
    var title := if IsNullOrEmpty(name) then [] else [TitleTerm + EscapeTitle(name.value) + "'"];
    var mime := if onlyFolders.None? then []
                else [if onlyFolders.value then FolderTerm else FileTerm];
    var rest := [ParentTerm(parent), "trashed=false"];
    assert !StartsWith(rest[0], TitleTerm) by { assert rest[0][0] != TitleTerm[0]; }
    assert mime != [] ==> !StartsWith(mime[0], TitleTerm) by {
      if mime != [] { assert mime[0][0] != TitleTerm[0]; }
    }
    title + mime + rest
  }

  const TitleTerm: string := "title = '"
  /** The mime type term of a search for folders only. */
  const FolderTerm: string := "mimeType = '" + FolderMimeType + "'"
  /** The mime type term of a search for files only. */
  const FileTerm: string := "mimeType != '" + FolderMimeType + "'"

  /** The parent term: the parent id, escaped like a title, in quotes. */
  function ParentTerm(parent: string): string {
    "'" + EscapeTitle(parent) + "' in parents"
  }
  const TrashedTerm: string := " and trashed=false"

  /** The query: the terms joined by " and ". It restricts the title
      exactly when a name is given, then the mime type when asked (equal
      to the folder type for folders only, different from it for files
      only), and always ends with the parent and the exclusion of trashed
      items. */
  function Query(name: Option<string>, onlyFolders: Option<bool>, parent: string): (q: string)
    ensures StartsWith(q, TitleTerm) <==> !IsNullOrEmpty(name)
    ensures !IsNullOrEmpty(name) ==> StartsWith(q, TitleTerm + EscapeTitle(name.value) + "' and ")
    ensures EndsWith(q, TrashedTerm)
    ensures q == (if IsNullOrEmpty(name) then "" else TitleTerm + EscapeTitle(name.value) + "' and ")
                 + (if onlyFolders == Some(true) then FolderTerm + " and "
                    else if onlyFolders == Some(false) then FileTerm + " and "
                    else "")
                 + ParentTerm(parent) + TrashedTerm
  {
    var terms := Terms(name, onlyFolders, parent);
    JoinEndsWith(terms, " and ");
    QuerySpelled(name, onlyFolders, parent);
    var q := Join(terms, " and ");
    assert q == terms[0] + " and " + Join(terms[1..], " and ");
    q
  }

  /** The joined terms spelled out, term by term. */
  lemma QuerySpelled(name: Option<string>, onlyFolders: Option<bool>, parent: string)
    ensures Join(Terms(name, onlyFolders, parent), " and ")
            == (if IsNullOrEmpty(name) then "" else TitleTerm + EscapeTitle(name.value) + "' and ")
               + (if onlyFolders == Some(true) then FolderTerm + " and "
                  else if onlyFolders == Some(false) then FileTerm + " and "
                  else "")
               + ParentTerm(parent) + TrashedTerm
  {
    var title := if IsNullOrEmpty(name) then [] else [TitleTerm + EscapeTitle(name.value) + "'"];
    var mime := if onlyFolders.None? then [] else [if onlyFolders.value then FolderTerm else FileTerm];
    var rest := [ParentTerm(parent), "trashed=false"];
    assert Terms(name, onlyFolders, parent) == title + mime + rest;
    var tail := ParentTerm(parent) + TrashedTerm;
    JoinTail(parent);
    var M := if onlyFolders == Some(true) then FolderTerm + " and "
             else if onlyFolders == Some(false) then FileTerm + " and "
             else "";
    var T := if IsNullOrEmpty(name) then "" else TitleTerm + EscapeTitle(name.value) + "' and ";
    JoinFront(mime, rest, M, tail);
    JoinFront(title, mime + rest, T, M + tail);
    Regroup(title, mime, rest, T, M, ParentTerm(parent), TrashedTerm);
  }

  /** Regrouping the joined terms and their spelling. */
  lemma Regroup(title: seq<string>, mime: seq<string>, rest: seq<string>, T: string, M: string, P: string, X: string)
    ensures title + mime + rest == title + (mime + rest)
    ensures T + (M + (P + X)) == T + M + P + X
  {
  }

  /** The last two terms joined. */
  lemma JoinTail(parent: string)
    ensures Join([ParentTerm(parent), "trashed=false"], " and ") == ParentTerm(parent) + TrashedTerm
  {
    JoinCons(ParentTerm(parent), ["trashed=false"], " and ");
    assert [ParentTerm(parent)] + ["trashed=false"] == [ParentTerm(parent), "trashed=false"];
    assert " and " + "trashed=false" == TrashedTerm;
  }

  /** An optional term joined before the others. */
  lemma JoinFront(front: seq<string>, rest: seq<string>, spelled: string, tail: string)
    requires |front| <= 1 && rest != [] && Join(rest, " and ") == tail
    requires front == [] ==> spelled == ""
    requires front != [] ==> spelled == front[0] + " and "
    ensures Join(front + rest, " and ") == spelled + tail
  {
    if front == [] {
      assert front + rest == rest;
    } else {
      JoinCons(front[0], rest, " and ");
      assert front + rest == [front[0]] + rest;
    }
  }

  /** Joining a term before others puts the separator between them. */
  lemma JoinCons(x: string, rest: seq<string>, sep: string)
    requires rest != []
    ensures Join([x] + rest, sep) == x + sep + Join(rest, sep)
  {
    assert ([x] + rest)[1..] == rest;
  }

  /** A file or folder as the Drive API describes it; nullable fields are
      options, a null mime type is "". */
  datatype Item = Item(id: string, title: string, mimeType: string, createdDate: Option<int>,
                       modifiedDate: Option<int>, fileSize: Option<int>)

  /** One reply of the list call. A listing is given the replies in
      order; when they run out before a page without a next-page token,
      the next request of the listing throws. */
  datatype Page = Page(items: seq<Item>, nextPageToken: Option<string>)

  predicate IsLastPage(p: Page) {
    IsNullOrWhiteSpace(p.nextPageToken)
  }

  /** Whether the replies contain the last page, that is, whether the
      listing ends without an exception. */
  predicate Complete(pages: seq<Page>) {
    FirstIndex(pages, IsLastPage).Some?
  }

  /** How many pages ListFolderAsync asks for: up to and including the
      first one without a next-page token, or all there are. */
  function PagesRead(pages: seq<Page>): (n: nat)
    ensures n <= |pages|
    ensures Complete(pages) ==> n > 0 && IsLastPage(pages[n - 1])
    ensures forall j :: 0 <= j < n - 1 ==> !IsLastPage(pages[j])
    ensures !Complete(pages) ==> n == |pages| && forall j :: 0 <= j < |pages| ==> !IsLastPage(pages[j])
  {
    var i := FirstIndex(pages, IsLastPage);
    if i.Some? then i.value + 1 else |pages|
  }

  function Flatten(pages: seq<Page>): seq<Item> {
    if pages == [] then [] else Flatten(pages[..|pages| - 1]) + pages[|pages| - 1].items
  }

  /** The items of the pages read. */
  function Fetched(pages: seq<Page>): seq<Item> {
    Flatten(pages[..PagesRead(pages)])
  }

  /** ListFolderAsync's paging: the first request carries no token, each
      later one the token of the previous reply; paging stops at the
      first reply whose token is blank. Running out of replies leaves
      the listing incomplete. */
  method ListFolder(pages: seq<Page>) returns (items: seq<Item>, requests: seq<Option<string>>, complete: bool)
    ensures |requests| == PagesRead(pages) && complete == Complete(pages)
    ensures items == Fetched(pages)
    ensures forall k :: 0 <= k < |requests| ==> requests[k] == (if k == 0 then None else pages[k - 1].nextPageToken)
  {
    items, requests, complete := [], [], false;
    var token: Option<string> := None;
    var k := 0;
    while k < |pages|
      invariant k == |requests| <= |pages|
      invariant items == Flatten(pages[..k])
      invariant forall j :: 0 <= j < k ==> !IsLastPage(pages[j])
      invariant forall j :: 0 <= j < k ==> requests[j] == (if j == 0 then None else pages[j - 1].nextPageToken)
      invariant token == (if k == 0 then None else pages[k - 1].nextPageToken)
    {
      requests := requests + [token];
      var res := pages[k];
      assert pages[..k + 1][..k] == pages[..k];
      items := items + res.items;
      k := k + 1;
      if IsLastPage(res) {
        assert FirstIndex(pages, IsLastPage) == Some(k - 1);
        complete := true;
        return;
      }
      token := res.nextPageToken;
    }
    assert FirstIndex(pages, IsLastPage).None?;
    assert pages[..k] == pages;
  }

  datatype Failure =
    | FileMissing
    | FolderMissing
    | MultipleEntries(name: string, display: string)
    | DeleteFailed(id: string)
    | UploadFailed
    | HttpStatus(code: int)
    | ListFailed      // a request for the next page threw

  /** The walk of GetFolderIdAsync over the remaining path components from
      folder `parent`: `lookup(parent, name)` stands for the ids the
      folder search returns, `create(name, parent)` for the id of a newly
      created folder. No match creates the folder when `autocreate` is
      set and fails with FolderMissing otherwise; two matches fail;
      exactly one is descended into. `display` is the path walked so far. */
  function Walk(parts: seq<string>, parent: string, display: string, autocreate: bool,
                lookup: (string, string) -> seq<string>, create: (string, string) -> string): (r: Result<string, Failure>)
    ensures parts == [] ==> r == Ok(parent)
    ensures r.Err? ==> r.error == FolderMissing || r.error.MultipleEntries?
    ensures r == Err(FolderMissing) ==> !autocreate
    decreases |parts|
  {
    if parts == [] then Ok(parent)
    else
      var p := parts[0];
      var res := lookup(parent, p);
      if |res| == 0 then
        if !autocreate then Err(FolderMissing)
        else Walk(parts[1..], create(p, parent), display + p + "/", autocreate, lookup, create)
      else if |res| > 1 then Err(MultipleEntries(p, display))
      else Walk(parts[1..], res[0], display + p + "/", autocreate, lookup, create)
  }

  /** The folders the walk creates, in walk order, as (name, parent)
      pairs: each component whose search under the folder reached before
      it finds nothing, up to the first failure. Each was missing from its
      parent, and nothing is created without `autocreate`. */
  function Created(parts: seq<string>, parent: string, autocreate: bool,
                   lookup: (string, string) -> seq<string>, create: (string, string) -> string)
    : (c: seq<(string, string)>)
    ensures !autocreate ==> c == []
    ensures |c| <= |parts|
    ensures forall x :: x in c ==> x.0 in parts
    ensures forall j :: 0 <= j < |c| ==> |lookup(c[j].1, c[j].0)| == 0
    ensures parts != [] && |lookup(parent, parts[0])| == 0 && autocreate ==> c != [] && c[0] == (parts[0], parent)
    decreases |parts|
  {
    if parts == [] then []
    else
      var p := parts[0];
      var res := lookup(parent, p);
      var rest := if |res| == 0 && autocreate then Created(parts[1..], create(p, parent), autocreate, lookup, create)
                  else if |res| == 1 then Created(parts[1..], res[0], autocreate, lookup, create)
                  else [];
      assert forall x :: x in rest ==> x.0 in parts by {
        forall x | x in rest ensures x.0 in parts { assert x.0 in parts[1..]; }
      }
      if |res| == 0 then (if autocreate then [(p, parent)] + rest else [])
      else rest
  }

  /** The walk's display text after the given components. */
  function Display(display: string, parts: seq<string>): string
    decreases |parts|
  {
    if parts == [] then display else Display(display + parts[0] + "/", parts[1..])
  }

  /** Walking a path is walking a prefix of it, then the rest from where
      the prefix ended. */
  lemma {:induction false} WalkSplit(a: seq<string>, b: seq<string>, parent: string, display: string, autocreate: bool,
                                     lookup: (string, string) -> seq<string>, create: (string, string) -> string)
    ensures var first := Walk(a, parent, display, autocreate, lookup, create);
      Walk(a + b, parent, display, autocreate, lookup, create)
      == if first.Err? then first else Walk(b, first.value, Display(display, a), autocreate, lookup, create)
    decreases |a|
  {
    if a != [] {
      assert (a + b)[0] == a[0] && (a + b)[1..] == a[1..] + b;
      var res := lookup(parent, a[0]);
      if |res| == 0 && autocreate {
        WalkSplit(a[1..], b, create(a[0], parent), display + a[0] + "/", autocreate, lookup, create);
      } else if |res| == 1 {
        WalkSplit(a[1..], b, res[0], display + a[0] + "/", autocreate, lookup, create);
      }
    } else {
      assert a + b == b;
    }
  }

  /** GetFolderIdAsync: walks the non-empty components of `path` from
      `root` (the team drive id, or else the root folder id), and records
      the folders it creates as (name, parent) pairs. */
  method GetFolderId(path: string, root: string, autocreate: bool,
                     lookup: (string, string) -> seq<string>, create: (string, string) -> string)
    returns (r: Result<string, Failure>, created: seq<(string, string)>)
    ensures r == Walk(SplitNonEmpty(path, '/'), root, "/", autocreate, lookup, create)
    ensures created == Created(SplitNonEmpty(path, '/'), root, autocreate, lookup, create)
  {
    var parts := SplitNonEmpty(path, '/');
    var curparent := root;
    var curdisplay := "/";
    created := [];
    var i := 0;
    while i < |parts|
      invariant i <= |parts|
      invariant Walk(parts[i..], curparent, curdisplay, autocreate, lookup, create)
                == Walk(parts, root, "/", autocreate, lookup, create)
      invariant created + Created(parts[i..], curparent, autocreate, lookup, create)
                == Created(parts, root, autocreate, lookup, create)
    {
      var p := parts[i];
      assert parts[i..][0] == p && parts[i..][1..] == parts[i + 1..];
      var res := lookup(curparent, p);
      if |res| == 0 {
        if !autocreate {
          return Err(FolderMissing), created;
        }
        assert created + [(p, curparent)] + Created(parts[i + 1..], create(p, curparent), autocreate, lookup, create)
               == created + Created(parts[i..], curparent, autocreate, lookup, create);
        created := created + [(p, curparent)];
        curparent := create(p, curparent);
      } else if |res| > 1 {
        return Err(MultipleEntries(p, curdisplay)), created;
      } else {
        curparent := res[0];
      }
      curdisplay := curdisplay + p + "/";
      i := i + 1;
    }
    assert created == Created(parts, root, autocreate, lookup, create) by {
      assert parts[i..] == [];
      assert created + [] == created;
    }
    r := Ok(curparent);
  }

  /** A listed entry: without a size only the name is known, without a
      modification date only the name and size. */
  datatype FileEntry = FileEntry(name: string, size: Option<int>, modified: Option<int>, isFolder: bool)

  /** FOLDER_MIMETYPE.Equals(mimeType, OrdinalIgnoreCase): the constant
      has no capitals, so the folded mime type must equal it. */
  predicate IsFolder(n: Item) {
    Lower(n.mimeType) == FolderMimeType
  }

  function EntryOf(n: Item): (e: FileEntry)
    ensures e.name == n.title && e.size == n.fileSize && e.isFolder == IsFolder(n)
    ensures e.modified.Some? <==> n.fileSize.Some? && n.modifiedDate.Some?
    ensures e.modified.Some? ==> e.modified == n.modifiedDate
  {
    if n.fileSize.None? then FileEntry(n.title, None, None, IsFolder(n))
    else if n.modifiedDate.None? then FileEntry(n.title, n.fileSize, None, IsFolder(n))
    else FileEntry(n.title, n.fileSize, n.modifiedDate, IsFolder(n))
  }

  function Entries(items: seq<Item>): (es: seq<FileEntry>)
    ensures |es| == |items| && forall i :: 0 <= i < |items| ==> es[i] == EntryOf(items[i])
  {
    seq(|items|, i requires 0 <= i < |items| => EntryOf(items[i]))
  }

  /** The cache ListEnumerableAsync leaves as written: the first file of
      each title only, since a second file resizes a local copy of the
      array and the dictionary keeps the old one. */
  function FirstPerName(items: seq<Item>): (c: map<string, seq<Item>>)
    ensures forall k :: k in c ==> |c[k]| == 1 && c[k][0] in items && c[k][0].title == k && !IsFolder(c[k][0])
    ensures forall x :: x in items && !IsFolder(x) ==> x.title in c
  {
    if items == [] then map[]
    else
      var n := items[|items| - 1];
      var c := FirstPerName(items[..|items| - 1]);
      assert forall x :: x in items <==> x in items[..|items| - 1] || x == n;
      if IsFolder(n) || n.title in c then c else c[n.title := [n]]
  }

  /** The cache listing is meant to build: every file of each title, in
      listing order. */
  function AllPerName(items: seq<Item>): (c: map<string, seq<Item>>)
    ensures forall k :: k in c ==> c[k] != [] && forall x :: x in c[k] ==> x in items && x.title == k && !IsFolder(x)
    ensures forall x :: x in items && !IsFolder(x) ==> x.title in c && x in c[x.title]
  {
    if items == [] then map[]
    else
      var n := items[|items| - 1];
      var c := AllPerName(items[..|items| - 1]);
      assert forall x :: x in items <==> x in items[..|items| - 1] || x == n;
      if IsFolder(n) then c else c[n.title := (if n.title in c then c[n.title] else []) + [n]]
  }

  /** The files titled `k`, in listing order. */
  function Named(items: seq<Item>, k: string): (r: seq<Item>)
    ensures forall x :: x in r <==> x in items && !IsFolder(x) && x.title == k
  {
    if items == [] then []
    else
      var n := items[|items| - 1];
      assert forall x :: x in items <==> x in items[..|items| - 1] || x == n;
      Named(items[..|items| - 1], k) + (if !IsFolder(n) && n.title == k then [n] else [])
  }

  /** The cache as written holds, for each title of a file, the first
      file of that title and nothing else. */
  lemma {:induction false} FirstPerNameIsFirst(items: seq<Item>)
    ensures forall k :: k in FirstPerName(items) <==> Named(items, k) != []
    ensures forall k :: k in FirstPerName(items) ==> FirstPerName(items)[k] == [Named(items, k)[0]]
  {
    if items != [] {
      var p, n := items[..|items| - 1], items[|items| - 1];
      FirstPerNameIsFirst(p);
      var c, c' := FirstPerName(p), FirstPerName(items);
      assert c' == if IsFolder(n) || n.title in c then c else c[n.title := [n]];
      forall k
        ensures (k in c' <==> Named(items, k) != []) && (k in c' ==> c'[k] == [Named(items, k)[0]])
      {
        assert Named(items, k) == Named(p, k) + (if !IsFolder(n) && n.title == k then [n] else []);
      }
    }
  }

  /** The intended cache holds, for each title of a file, every file of
      that title in listing order. */
  lemma {:induction false} AllPerNameIsNamed(items: seq<Item>)
    ensures forall k :: k in AllPerName(items) <==> Named(items, k) != []
    ensures forall k :: k in AllPerName(items) ==> AllPerName(items)[k] == Named(items, k)
  {
    if items != [] {
      var p, n := items[..|items| - 1], items[|items| - 1];
      AllPerNameIsNamed(p);
      var c, c' := AllPerName(p), AllPerName(items);
      assert c' == if IsFolder(n) then c else c[n.title := (if n.title in c then c[n.title] else []) + [n]];
      forall k
        ensures (k in c' <==> Named(items, k) != []) && (k in c' ==> c'[k] == Named(items, k))
      {
        assert Named(items, k) == Named(p, k) + (if !IsFolder(n) && n.title == k then [n] else []);
      }
    }
  }

  /** Two files of one title: the cache as written keeps the first of
      them only, so a later delete removes that one and leaves the other. */
  lemma FirstPerNameDropsDuplicate(a: Item, b: Item)
    requires a.title == b.title && a != b && !IsFolder(a) && !IsFolder(b)
    ensures FirstPerName([a, b]) == map[a.title := [a]]
  {
    assert [a, b][..1] == [a] && [a, b][1] == b;
    assert [a][..0] == [];
    assert FirstPerName([a]) == map[a.title := [a]];
  }

  /** The intended cache keeps both, in listing order. */
  lemma AllPerNameKeepsDuplicate(a: Item, b: Item)
    requires a.title == b.title && !IsFolder(a) && !IsFolder(b)
    ensures AllPerName([a, b]) == map[a.title := [a, b]]
  {
    assert [a, b][..1] == [a] && [a, b][1] == b;
    assert [a][..0] == [] && [a][0] == a && [] + [a] == [a];
    assert AllPerName([a]) == map[a.title := [a]];
    assert [a] + [b] == [a, b];
  }

  /** The cache after a listing that reached the last page: all files of
      the pages read, grouped by title. */
  function Listed(pages: seq<Page>): map<string, seq<Item>> {
    AllPerName(Fetched(pages))
  }

  /** PutAsync and GetAsync list the folder when the cache is empty; that
      listing throws when it does not reach the last page. */
  predicate ListingFails(cache: map<string, seq<Item>>, pages: seq<Page>) {
    |cache| == 0 && !Complete(pages)
  }

  /** The loop of ListEnumerableAsync as written: an entry per item,
      and a cache entry for the first file of each title. */
  method CollectAsWritten(items: seq<Item>) returns (entries: seq<FileEntry>, cache: map<string, seq<Item>>)
    ensures entries == Entries(items) && cache == FirstPerName(items)
  {
    entries, cache := [], map[];
    var i := 0;
    while i < |items|
      invariant i <= |items|
      invariant entries == Entries(items[..i])
      invariant cache == FirstPerName(items[..i])
    {
      var n := items[i];
      assert items[..i + 1][..i] == items[..i] && items[..i + 1][i] == n;
      assert Entries(items[..i + 1]) == entries + [EntryOf(n)];
      if !IsFolder(n) && n.title !in cache {
        cache := cache[n.title := [n]];
      }
      entries := entries + [EntryOf(n)];
      i := i + 1;
    }
    assert items[..i] == items;
  }

  /** The same loop with every file of a title appended to its entry. */
  method Collect(items: seq<Item>) returns (entries: seq<FileEntry>, cache: map<string, seq<Item>>)
    ensures entries == Entries(items) && cache == AllPerName(items)
  {
    entries, cache := [], map[];
    var i := 0;
    while i < |items|
      invariant i <= |items|
      invariant entries == Entries(items[..i])
      invariant cache == AllPerName(items[..i])
    {
      var n := items[i];
      assert items[..i + 1][..i] == items[..i] && items[..i + 1][i] == n;
      assert Entries(items[..i + 1]) == entries + [EntryOf(n)];
      if !IsFolder(n) {
        cache := cache[n.title := (if n.title in cache then cache[n.title] else []) + [n]];
      }
      entries := entries + [EntryOf(n)];
      i := i + 1;
    }
    assert items[..i] == items;
  }

  /** The position of the first item whose deletion is refused. */
  function FirstRefused(items: seq<Item>, refused: set<string>): (r: Option<nat>)
    ensures r.Some? ==> r.value < |items| && items[r.value].id in refused
                        && forall j :: 0 <= j < r.value ==> items[j].id !in refused
    ensures r.None? <==> forall x :: x in items ==> x.id !in refused
  {
    FirstIndex(items, (x: Item) => x.id in refused)
  }

  /** The cache an operation works on after filling an empty one. */
  function Filled(cache: map<string, seq<Item>>, pages: seq<Page>): map<string, seq<Item>> {
    if |cache| == 0 then Listed(pages) else cache
  }

  class GoogleDriveBackend {
    /** The target folder's path, with a trailing '/'. */
    const path: string
    const teamDriveId: Option<string>
    var fileCache: map<string, seq<Item>>
    var currentFolderId: Option<string>

    /** Every cached title maps to at least one item. */
    ghost predicate Valid()
      reads this`fileCache
    {
      forall k :: k in fileCache ==> fileCache[k] != []
    }

    /** The constructor: the URL's host and path with a trailing '/' is
        the target folder; the team drive id is an option; the cache
        starts empty. */
    constructor(hostAndPath: string, options: map<string, string>)
      ensures path == AppendDirSeparator(hostAndPath)
      ensures teamDriveId == Lookup(options, "googledrive-teamdrive-id")
      ensures fileCache == map[] && currentFolderId.None? && Valid()
    {
      path := AppendDirSeparator(hostAndPath);
      teamDriveId := Lookup(options, "googledrive-teamdrive-id");
      fileCache := map[];
      currentFolderId := None;
    }

    /** CreateFolderAsync: the cache is cleared and the target folder is
        walked to with every missing folder created; the folder found
        becomes the current one. `rootFolderId` is the account's root,
        used when there is no team drive. */
    method CreateFolder(rootFolderId: string, lookup: (string, string) -> seq<string>, create: (string, string) -> string)
      returns (r: Result<string, Failure>, created: seq<(string, string)>)
      modifies this`fileCache, this`currentFolderId
      ensures fileCache == map[] && Valid()
      ensures var root := if teamDriveId.Some? then teamDriveId.value else rootFolderId;
        r == Walk(SplitNonEmpty(path, '/'), root, "/", true, lookup, create)
      ensures r.Ok? ==> currentFolderId == Some(r.value)
      ensures r.Err? ==> r.error.MultipleEntries? && currentFolderId == old(currentFolderId)
    {
      fileCache := map[];
      var root := if teamDriveId.Some? then teamDriveId.value else rootFolderId;
      r, created := GetFolderId(path, root, true, lookup, create);
      if r.Ok? {
        currentFolderId := Some(r.value);
      }
    }

    /** ListAsync over ListEnumerableAsync as written: the cache is
        cleared, then holds the first file of each title, and every item
        becomes an entry; a listing that does not reach the last page
        throws, and the cache is cleared again. */
    method ListAsWritten(pages: seq<Page>) returns (r: Result<seq<FileEntry>, Failure>)
      modifies this`fileCache
      ensures Complete(pages) ==> r == Ok(Entries(Fetched(pages))) && fileCache == FirstPerName(Fetched(pages))
      ensures !Complete(pages) ==> r == Err(ListFailed) && fileCache == map[]
    {
      fileCache := map[];
      var items, requests, complete := ListFolder(pages);
      var entries, cache := CollectAsWritten(items);
      if complete {
        fileCache := cache;
        r := Ok(entries);
      } else {
        fileCache := map[];
        r := Err(ListFailed);
      }
    }

    /** The same listing with every file of a title kept. */
    method List(pages: seq<Page>) returns (r: Result<seq<FileEntry>, Failure>)
      modifies this`fileCache
      ensures Valid()
      ensures Complete(pages) ==> r == Ok(Entries(Fetched(pages))) && fileCache == Listed(pages)
      ensures !Complete(pages) ==> r == Err(ListFailed) && fileCache == map[]
    {
      fileCache := map[];
      var items, requests, complete := ListFolder(pages);
      var entries, cache := Collect(items);
      if complete {
        fileCache := cache;
        r := Ok(entries);
      } else {
        fileCache := map[];
        r := Err(ListFailed);
      }
    }

    /** The full listing PutAsync and GetAsync run when the cache is empty;
        its failure leaves the cache empty. */
    method Fill(pages: seq<Page>) returns (r: Result<(), Failure>)
      requires Valid()
      modifies this`fileCache
      ensures Valid()
      ensures r.Err? <==> ListingFails(old(fileCache), pages)
      ensures r.Err? ==> r.error == ListFailed && fileCache == map[]
      ensures r.Ok? ==> fileCache == Filled(old(fileCache), pages)
    {
      r := Ok(());
      if |fileCache| == 0 {
        var listed := List(pages);
        if listed.Err? {
          r := Err(ListFailed);
        }
      }
    }

    /** GetFileEntriesAsync: the cached items of the title, or else those
        a search for it returns (`named`), which are cached unless there
        are none, in which case the file is missing. */
    method GetFileEntries(name: string, named: seq<Item>) returns (r: Result<seq<Item>, Failure>)
      requires Valid()
      modifies this`fileCache
      ensures Valid()
      ensures name in old(fileCache) ==> r == Ok(old(fileCache)[name]) && fileCache == old(fileCache)
      ensures name !in old(fileCache) && named == [] ==> r == Err(FileMissing) && fileCache == old(fileCache)
      ensures name !in old(fileCache) && named != [] ==> r == Ok(named) && fileCache == old(fileCache)[name := named]
      ensures r.Ok? ==> r.value != []
    {
      if name in fileCache {
        return Ok(fileCache[name]);
      }
      if named == [] {
        return Err(FileMissing);
      }
      fileCache := fileCache[name := named];
      r := Ok(named);
    }

    /** DeleteAsync: each item of the title is deleted in turn (`refused`
        are the ids whose deletion the service refuses); success removes
        the title from the cache, any failure clears the whole cache. */
    method Delete(name: string, named: seq<Item>, refused: set<string>) returns (r: Result<(), Failure>, deleted: seq<string>)
      requires Valid()
      modifies this`fileCache
      ensures Valid()
      ensures var items := if name in old(fileCache) then old(fileCache)[name] else named;
        var stop := FirstRefused(items, refused);
        (items == [] ==> r == Err(FileMissing) && deleted == [])
        && (items != [] && stop.None? ==>
              r.Ok? && |deleted| == |items| && (forall i :: 0 <= i < |items| ==> deleted[i] == items[i].id)
              && fileCache == old(fileCache) - {name})
        && (items != [] && stop.Some? ==>
              r == Err(DeleteFailed(items[stop.value].id))
              && |deleted| == stop.value && (forall i :: 0 <= i < stop.value ==> deleted[i] == items[i].id))
        && (r.Err? ==> fileCache == map[])
    {
      deleted := [];
      var entries := GetFileEntries(name, named);
      if entries.Err? {
        fileCache := map[];
        return Err(entries.error), deleted;
      }
      var items := entries.value;
      var i := 0;
      while i < |items|
        invariant i <= |items| && |deleted| == i
        invariant forall j :: 0 <= j < i ==> deleted[j] == items[j].id && items[j].id !in refused
        invariant fileCache == old(fileCache) || fileCache == old(fileCache)[name := named]
      {
        if items[i].id in refused {
          fileCache := map[];
          return Err(DeleteFailed(items[i].id)), deleted;
        }
        deleted := deleted + [items[i].id];
        i := i + 1;
      }
      fileCache := fileCache - {name};
      r := Ok(());
    }

    /** PutAsync: the cache is filled if empty, and a listing that fails
        fails the put; a title with exactly one cached file is updated in
        place (a PUT of that file's id), one with several has them
        deleted first and is created anew (a POST);
        afterwards the title maps to the uploaded item alone. `uploaded`
        is what the upload returns, None when it throws. Any failure
        clears the whole cache. */
    method Put(name: string, pages: seq<Page>, uploaded: Option<Item>, refused: set<string>)
      returns (r: Result<(), Failure>, fileId: Option<string>, isUpdate: bool)
      requires Valid()
      modifies this`fileCache
      ensures Valid()
      ensures ListingFails(old(fileCache), pages) ==> r == Err(ListFailed) && fileId.None? && !isUpdate
      ensures !ListingFails(old(fileCache), pages) ==>
        var before := Filled(old(fileCache), pages);
        (fileId.Some? <==> name in before && |before[name]| == 1)
        && (fileId.Some? ==> fileId.value == before[name][0].id)
        && isUpdate == !IsNullOrWhiteSpace(fileId)
      ensures !ListingFails(old(fileCache), pages) ==>
        var before := Filled(old(fileCache), pages);
        var deletes := name in before && |before[name]| != 1;
        (deletes && FirstRefused(before[name], refused).Some? ==>
           r == Err(DeleteFailed(before[name][FirstRefused(before[name], refused).value].id)))
        && (!(deletes && FirstRefused(before[name], refused).Some?) ==>
              (uploaded.None? ==> r == Err(UploadFailed))
              && (uploaded.Some? ==> r.Ok? && fileCache == before[name := [uploaded.value]]))
      ensures r.Err? ==> fileCache == map[]
    {
      var filled := Fill(pages);
      if filled.Err? {
        return Err(ListFailed), None, false;
      }
      r, fileId, isUpdate := PutFilled(name, uploaded, refused);
    }

    /** PutAsync once the cache is filled. */
    method PutFilled(name: string, uploaded: Option<Item>, refused: set<string>)
      returns (r: Result<(), Failure>, fileId: Option<string>, isUpdate: bool)
      requires Valid()
      modifies this`fileCache
      ensures Valid()
      ensures var before := old(fileCache);
        (fileId.Some? <==> name in before && |before[name]| == 1)
        && (fileId.Some? ==> fileId.value == before[name][0].id)
        && isUpdate == !IsNullOrWhiteSpace(fileId)
      ensures var before := old(fileCache);
        var deletes := name in before && |before[name]| != 1;
        (deletes && FirstRefused(before[name], refused).Some? ==>
           r == Err(DeleteFailed(before[name][FirstRefused(before[name], refused).value].id)))
        && (!(deletes && FirstRefused(before[name], refused).Some?) ==>
              (uploaded.None? ==> r == Err(UploadFailed))
              && (uploaded.Some? ==> r.Ok? && fileCache == before[name := [uploaded.value]]))
      ensures r.Err? ==> fileCache == map[]
    {
      fileId := None;
      isUpdate := false;
      if name in fileCache {
        var files := fileCache[name];
        if |files| == 1 {
          fileId := Some(files[0].id);
        } else {
          var before := fileCache;
          var d, deleted := Delete(name, [], refused);
          if d.Err? {
            return d, fileId, isUpdate;
          }
          assert fileCache[name := []] == before[name := []];
        }
      }
      isUpdate := !IsNullOrWhiteSpace(fileId);
      if uploaded.None? {
        fileCache := map[];
        return Err(UploadFailed), fileId, isUpdate;
      }
      fileCache := fileCache[name := [uploaded.value]];
      r := Ok(());
    }

    /** GetAsync: the cache is filled if empty (a listing that fails
        fails the download and leaves the cache empty), the title's
        items are looked up (or searched for), and the one created last is
        downloaded; 404 means the file is missing, any other non-success
        status fails. The cache is left as the look-up made it. */
    method Get(name: string, pages: seq<Page>, named: seq<Item>, status: int) returns (r: Result<Item, Failure>)
      requires Valid()
      modifies this`fileCache
      ensures Valid()
      ensures ListingFails(old(fileCache), pages) ==> r == Err(ListFailed) && fileCache == map[]
      ensures !ListingFails(old(fileCache), pages) ==>
        var before := Filled(old(fileCache), pages);
        var items := if name in before then before[name] else named;
        (r.Ok? <==> items != [] && status != 404 && IsSuccessStatus(status))
        && (r.Ok? ==> r.value in items && forall x :: x in items ==> !Earlier(r.value.createdDate, x.createdDate))
        && (r.Err? && (items == [] || status == 404) ==> r.error == FileMissing)
        && (r.Err? && items != [] && status != 404 ==> r.error == HttpStatus(status))
        && fileCache == (if name in before || items == [] then before else before[name := items])
    {
      var filled := Fill(pages);
      if filled.Err? {
        return Err(ListFailed);
      }
      var entries := GetFileEntries(name, named);
      if entries.Err? {
        return Err(entries.error);
      }
      var items := entries.value;
      var newest := items[NewestIndex(items, (x: Item) => x.createdDate)];
      if status == 404 {
        return Err(FileMissing);
      }
      if !IsSuccessStatus(status) {
        return Err(HttpStatus(status));
      }
      r := Ok(newest);
    }
  }
}
