/** internal/content/loader.go: reading the content directory into a ContentStore. The file
    system, the goldmark Markdown converter (with its front-matter extension) and yaml.v3's
    decoding of whole documents are inputs to the model, given as functions. */
module Loader {
  import opened Wrappers
  import opened Text
  import opened Sorting
  import opened ContentTypes

  // ---------------------------------------------------------------- the world the loader reads

  newtype byte = b: int | 0 <= b < 256

  type Bytes = seq<byte>

  datatype DirEntry = DirEntry(name: string, isDir: bool)

  /** os.ReadDir: the entries of a directory, or an error that may say the path does not exist. */
  datatype ReadDirResult = Listing(entries: seq<DirEntry>) | DirFailed(reason: string, notExist: bool)

  /** os.ReadFile: the bytes of a file, or an error that may say the path does not exist. */
  datatype ReadFileResult = Contents(data: Bytes) | FileFailed(reason: string, notExist: bool)

  datatype FileSystem = FileSystem(readDir: string -> ReadDirResult, readFile: string -> ReadFileResult)

  /** The names in one listing are distinct, as in any real directory. */
  predicate DistinctNames(es: seq<DirEntry>) {
    forall i, j :: 0 <= i < j < |es| ==> es[i].name != es[j].name
  }

  /** A converted Markdown document: the HTML, and the raw front-matter block when there is one. */
  datatype Document = Document(html: HTML, frontMatter: Option<Bytes>)

  /** The libraries the loader calls: goldmark on a whole document and on an inline snippet,
      the front-matter decoder into a zero BlogPost or Project, and yaml.Unmarshal into a zero
      Resume. Each either succeeds or fails with a message. */
  datatype Engines = Engines(
    convert: Bytes -> Result<Document, string>,
    convertInline: string -> Result<HTML, string>,
    decodePostMeta: Bytes -> Result<BlogPost, string>,
    decodeProjectMeta: Bytes -> Result<Project, string>,
    unmarshalResume: Bytes -> Result<Resume, string>)

  /** filepath.Join for a directory and a plain file name. */
  function Join(dir: string, name: string): string {
    dir + "/" + name
  }

  // ---------------------------------------------------------------- one Markdown file

  /** renderMarkdown: converts the document and, when it has front matter, decodes it over the
      zero record; a front-matter error is wrapped "decoding frontmatter: ". */
  function RenderMarkdown<M>(eng: Engines, src: Bytes, zero: M, decodeMeta: Bytes -> Result<M, string>)
    : (r: Result<(HTML, M), string>)
    ensures eng.convert(src).Failure? ==> r == Failure(eng.convert(src).error)
    ensures eng.convert(src).Success? && eng.convert(src).value.frontMatter.None? ==>
      r == Success((eng.convert(src).value.html, zero))
    ensures eng.convert(src).Success? && eng.convert(src).value.frontMatter.Some? ==>
      var meta := decodeMeta(eng.convert(src).value.frontMatter.value);
      (meta.Failure? ==> r == Failure("decoding frontmatter: " + meta.error))
      && (meta.Success? ==> r == Success((eng.convert(src).value.html, meta.value)))
  {
    match eng.convert(src)
    case Failure(m) => Failure(m)
    case Success(doc) =>
      match doc.frontMatter
      case None => Success((doc.html, zero))
      case Some(fm) =>
        match decodeMeta(fm)
        case Failure(m) => Failure("decoding frontmatter: " + m)
        case Success(meta) => Success((doc.html, meta))
  }

  const ZeroPost: BlogPost := BlogPost("", "", ZeroDate, "", [], "")

  const ZeroProject: Project := Project("", "", ZeroDate, "", [], "", "", "", false, "")

  /** The decode callback of loadBlogPosts: the front matter plus the slug and the rendered body. */
  function DecodePost(eng: Engines, data: Bytes, slug: string): (r: Result<BlogPost, string>)
    ensures r.Success? ==> r.value.slug == slug
    ensures r.Success? <==> RenderMarkdown(eng, data, ZeroPost, eng.decodePostMeta).Success?
    ensures r.Success? ==> r.value.content == RenderMarkdown(eng, data, ZeroPost, eng.decodePostMeta).value.0
    ensures r.Success? ==>
      var m := RenderMarkdown(eng, data, ZeroPost, eng.decodePostMeta).value.1;
      r.value.title == m.title && r.value.date == m.date && r.value.description == m.description
      && r.value.tags == m.tags
  {
    match RenderMarkdown(eng, data, ZeroPost, eng.decodePostMeta)
    case Failure(m) => Failure(m)
    case Success((html, meta)) => Success(meta.(slug := slug, content := html))
  }

  /** Every outcome of decoding a post, in terms of the libraries: the declared fields come from
      the front matter (or stay zero without one), the slug from the file name, the content from
      goldmark. */
  lemma DecodePostMeta(eng: Engines, data: Bytes, slug: string)
    ensures eng.convert(data).Failure? ==> DecodePost(eng, data, slug) == Failure(eng.convert(data).error)
    ensures eng.convert(data).Success? && eng.convert(data).value.frontMatter.None? ==>
      DecodePost(eng, data, slug) == Success(ZeroPost.(slug := slug, content := eng.convert(data).value.html))
    ensures eng.convert(data).Success? && eng.convert(data).value.frontMatter.Some? ==>
      var meta := eng.decodePostMeta(eng.convert(data).value.frontMatter.value);
      (meta.Failure? ==> DecodePost(eng, data, slug) == Failure("decoding frontmatter: " + meta.error))
      && (meta.Success? ==>
            DecodePost(eng, data, slug) == Success(meta.value.(slug := slug, content := eng.convert(data).value.html)))
  {
  }

  /** The decode callback of loadProjects. */
  function DecodeProject(eng: Engines, data: Bytes, slug: string): (r: Result<Project, string>)
    ensures r.Success? ==> r.value.slug == slug
    ensures r.Success? <==> RenderMarkdown(eng, data, ZeroProject, eng.decodeProjectMeta).Success?
    ensures r.Success? ==> r.value.content == RenderMarkdown(eng, data, ZeroProject, eng.decodeProjectMeta).value.0
    ensures r.Success? ==>
      var m := RenderMarkdown(eng, data, ZeroProject, eng.decodeProjectMeta).value.1;
      r.value.title == m.title && r.value.date == m.date && r.value.description == m.description
      && r.value.tags == m.tags && r.value.repo == m.repo && r.value.url == m.url
      && r.value.status == m.status && r.value.featured == m.featured
  {
    match RenderMarkdown(eng, data, ZeroProject, eng.decodeProjectMeta)
    case Failure(m) => Failure(m)
    case Success((html, meta)) => Success(meta.(slug := slug, content := html))
  }

  /** Every outcome of decoding a project, as DecodePostMeta states it for a post. */
  lemma DecodeProjectMeta(eng: Engines, data: Bytes, slug: string)
    ensures eng.convert(data).Failure? ==> DecodeProject(eng, data, slug) == Failure(eng.convert(data).error)
    ensures eng.convert(data).Success? && eng.convert(data).value.frontMatter.None? ==>
      DecodeProject(eng, data, slug) == Success(ZeroProject.(slug := slug, content := eng.convert(data).value.html))
    ensures eng.convert(data).Success? && eng.convert(data).value.frontMatter.Some? ==>
      var meta := eng.decodeProjectMeta(eng.convert(data).value.frontMatter.value);
      (meta.Failure? ==> DecodeProject(eng, data, slug) == Failure("decoding frontmatter: " + meta.error))
      && (meta.Success? ==>
            DecodeProject(eng, data, slug) == Success(meta.value.(slug := slug, content := eng.convert(data).value.html)))
  {
  }

  function PostDecoder(eng: Engines): (Bytes, string) -> Result<BlogPost, string> {
    (data, slug) => DecodePost(eng, data, slug)
  }

  function ProjectDecoder(eng: Engines): (Bytes, string) -> Result<Project, string> {
    (data, slug) => DecodeProject(eng, data, slug)
  }

  // ---------------------------------------------------------------- a directory of Markdown files

  /** Only regular entries named *.md are loaded. */
  predicate Eligible(e: DirEntry) {
    !e.isDir && HasSuffix(e.name, ".md")
  }

  /** Reading and decoding one entry; errors are prefixed with the entry's name. */
  function LoadEntry<T>(fs: FileSystem, dir: string, e: DirEntry, decode: (Bytes, string) -> Result<T, string>)
    : (r: Result<T, string>)
    ensures r.Success? <==>
      fs.readFile(Join(dir, e.name)).Contents?
      && decode(fs.readFile(Join(dir, e.name)).data, TrimSuffix(e.name, ".md")).Success?
    ensures r.Success? ==> r == decode(fs.readFile(Join(dir, e.name)).data, TrimSuffix(e.name, ".md"))
    ensures r.Failure? ==> HasPrefix(r.error, "reading " + e.name + ": ") || HasPrefix(r.error, "parsing " + e.name + ": ")
  {
    match fs.readFile(Join(dir, e.name))
    case FileFailed(reason, _) => Failure("reading " + e.name + ": " + reason)
    case Contents(data) =>
      match decode(data, TrimSuffix(e.name, ".md"))
      case Failure(m) => Failure("parsing " + e.name + ": " + m)
      case Success(x) => Success(x)
  }

  /** The loop of loadMarkdownDir over a listing, entry by entry from the left. */
  function LoadEntries<T>(fs: FileSystem, dir: string, es: seq<DirEntry>, decode: (Bytes, string) -> Result<T, string>)
    : Result<seq<T>, string>
  {
    if es == [] then Success([])
    else
      match LoadEntries(fs, dir, es[..|es| - 1], decode)
      case Failure(m) => Failure(m)
      case Success(xs) =>
        if !Eligible(es[|es| - 1]) then Success(xs)
        else
          match LoadEntry(fs, dir, es[|es| - 1], decode)
          case Failure(m) => Failure(m)
          case Success(x) => Success(xs + [x])
  }

  /** What loadMarkdownDir returns for dir. */
  function DirItems<T>(fs: FileSystem, dir: string, decode: (Bytes, string) -> Result<T, string>)
    : (r: Result<seq<T>, string>)
    ensures fs.readDir(dir).DirFailed? && fs.readDir(dir).notExist ==> r == Success([])
    ensures fs.readDir(dir).DirFailed? && !fs.readDir(dir).notExist ==> r == Failure(fs.readDir(dir).reason)
  {
    match fs.readDir(dir)
    case DirFailed(reason, notExist) => if notExist then Success([]) else Failure(reason)
    case Listing(es) => LoadEntries(fs, dir, es, decode)
  }

  /** loadMarkdownDir: reads the listing, skips what is not a Markdown file, and reads and
      decodes the rest in listing order; the first failure ends the load. */
  method LoadMarkdownDir<T>(fs: FileSystem, dir: string, decode: (Bytes, string) -> Result<T, string>)
    returns (r: Result<seq<T>, string>)
    ensures r == DirItems(fs, dir, decode)
  {
    var listing := fs.readDir(dir);
    if listing.DirFailed? {
      if listing.notExist {
        return Success([]);
      }
      return Failure(listing.reason);
    }
    var es := listing.entries;
    var items: seq<T> := [];
    var i := 0;
    while i < |es|
      invariant 0 <= i <= |es|
      invariant LoadEntries(fs, dir, es[..i], decode) == Success(items)
    {
      var e := es[i];
      assert es[..i + 1][..i] == es[..i];
      if e.isDir || !HasSuffix(e.name, ".md") {
        i := i + 1;
        continue;
      }
      var item := LoadOne(fs, dir, e, decode);
      if item.Failure? {
        LoadEntriesFailureSticks(fs, dir, es, i + 1, decode);
        return Failure(item.error);
      }
      items := items + [item.value];
      i := i + 1;
    }
    assert es[..|es|] == es;
    r := Success(items);
  }

  /** The body of the loop for one Markdown entry: read the file, then decode it under the slug
      that is its name without ".md". */
  method LoadOne<T>(fs: FileSystem, dir: string, e: DirEntry, decode: (Bytes, string) -> Result<T, string>)
    returns (r: Result<T, string>)
    ensures r == LoadEntry(fs, dir, e, decode)
  {
    var file := fs.readFile(Join(dir, e.name));
    if file.FileFailed? {
      return Failure("reading " + e.name + ": " + file.reason);
    }
    var slug := TrimSuffix(e.name, ".md");
    var item := decode(file.data, slug);
    if item.Failure? {
      return Failure("parsing " + e.name + ": " + item.error);
    }
    return Success(item.value);
  }

  /** Once a prefix of the listing has failed, the whole listing fails the same way. */
  lemma {:induction false} LoadEntriesFailureSticks<T>(
    fs: FileSystem, dir: string, es: seq<DirEntry>, n: nat, decode: (Bytes, string) -> Result<T, string>)
    requires n <= |es| && LoadEntries(fs, dir, es[..n], decode).Failure?
    ensures LoadEntries(fs, dir, es, decode) == LoadEntries(fs, dir, es[..n], decode)
    decreases |es|
  {
    if n < |es| {
      var init := es[..|es| - 1];
      assert init[..n] == es[..n];
      LoadEntriesFailureSticks(fs, dir, init, n, decode);
    } else {
      assert es[..n] == es;
    }
  }

  // ---------------------------------------------------------------- what the directory loop means

  /** The entries the loop keeps, in listing order. */
  function Kept(es: seq<DirEntry>): (ks: seq<DirEntry>)
    ensures |ks| <= |es|
    ensures forall k :: 0 <= k < |ks| ==> Eligible(ks[k])
  {
    if es == [] then []
    else Kept(es[..|es| - 1]) + (if Eligible(es[|es| - 1]) then [es[|es| - 1]] else [])
  }

  /** Loading every entry of ks, with no filtering. */
  function LoadAll<T>(fs: FileSystem, dir: string, ks: seq<DirEntry>, decode: (Bytes, string) -> Result<T, string>)
    : Result<seq<T>, string>
  {
    if ks == [] then Success([])
    else
      match LoadAll(fs, dir, ks[..|ks| - 1], decode)
      case Failure(m) => Failure(m)
      case Success(xs) =>
        match LoadEntry(fs, dir, ks[|ks| - 1], decode)
        case Failure(m) => Failure(m)
        case Success(x) => Success(xs + [x])
  }

  /** Skipping and loading interleaved is loading the kept entries. */
  lemma {:induction false} LoadEntriesIsLoadAll<T>(
    fs: FileSystem, dir: string, es: seq<DirEntry>, decode: (Bytes, string) -> Result<T, string>)
    ensures LoadEntries(fs, dir, es, decode) == LoadAll(fs, dir, Kept(es), decode)
  {
    if es != [] {
      var init := es[..|es| - 1];
      var last := es[|es| - 1];
      LoadEntriesIsLoadAll(fs, dir, init, decode);
      if Eligible(last) {
        var ks := Kept(es);
        assert ks[..|ks| - 1] == Kept(init) && ks[|ks| - 1] == last;
      } else {
        assert Kept(es) == Kept(init);
      }
    }
  }

  /** An entry is kept exactly when it is in the listing and is a Markdown file. */
  lemma {:induction false} KeptMembers(es: seq<DirEntry>)
    ensures forall e :: e in Kept(es) <==> e in es && Eligible(e)
  {
    if es != [] {
      var init := es[..|es| - 1];
      KeptMembers(init);
      assert es == init + [es[|es| - 1]];
    }
  }

  /** The kept entries of a listing with distinct names have distinct names. */
  lemma {:induction false} KeptDistinct(es: seq<DirEntry>)
    requires DistinctNames(es)
    ensures DistinctNames(Kept(es))
  {
    if es != [] {
      var init := es[..|es| - 1];
      var last := es[|es| - 1];
      assert DistinctNames(init);
      KeptDistinct(init);
      KeptMembers(init);
      if Eligible(last) {
        var ks := Kept(es);
        forall i, j | 0 <= i < j < |ks| ensures ks[i].name != ks[j].name {
          if j == |ks| - 1 {
            assert ks[i] in Kept(init);
            var m :| 0 <= m < |init| && init[m] == ks[i];
            assert es[m] == ks[i] && last == es[|es| - 1];
          } else {
            assert ks[i] == Kept(init)[i] && ks[j] == Kept(init)[j];
          }
        }
      }
    }
  }

  /** Loading succeeds exactly when every kept entry loads, and then item k is entry k's value. */
  lemma {:induction false} LoadAllSuccess<T>(
    fs: FileSystem, dir: string, ks: seq<DirEntry>, decode: (Bytes, string) -> Result<T, string>)
    ensures LoadAll(fs, dir, ks, decode).Success? <==>
      forall k :: 0 <= k < |ks| ==> LoadEntry(fs, dir, ks[k], decode).Success?
    ensures LoadAll(fs, dir, ks, decode).Success? ==>
      |LoadAll(fs, dir, ks, decode).value| == |ks|
      && forall k :: 0 <= k < |ks| ==> LoadAll(fs, dir, ks, decode).value[k] == LoadEntry(fs, dir, ks[k], decode).value
  {
    if ks != [] {
      var init := ks[..|ks| - 1];
      LoadAllSuccess(fs, dir, init, decode);
      assert forall k :: 0 <= k < |init| ==> init[k] == ks[k];
    }
  }

  /** A failed load reports the error of the first kept entry that fails. */
  lemma {:induction false} LoadAllFailure<T>(
    fs: FileSystem, dir: string, ks: seq<DirEntry>, decode: (Bytes, string) -> Result<T, string>)
    requires LoadAll(fs, dir, ks, decode).Failure?
    ensures exists k :: (0 <= k < |ks|
      && LoadEntry(fs, dir, ks[k], decode) == Failure(LoadAll(fs, dir, ks, decode).error)
      && forall j :: 0 <= j < k ==> LoadEntry(fs, dir, ks[j], decode).Success?)
  {
    var init := ks[..|ks| - 1];
    assert forall k :: 0 <= k < |init| ==> init[k] == ks[k];
    if LoadAll(fs, dir, init, decode).Failure? {
      LoadAllFailure(fs, dir, init, decode);
      var k :| 0 <= k < |init|
        && LoadEntry(fs, dir, init[k], decode) == Failure(LoadAll(fs, dir, init, decode).error)
        && forall j :: 0 <= j < k ==> LoadEntry(fs, dir, init[j], decode).Success?;
      assert ks[k] == init[k];
    } else {
      LoadAllSuccess(fs, dir, init, decode);
      assert LoadEntry(fs, dir, ks[|ks| - 1], decode) == Failure(LoadAll(fs, dir, ks, decode).error);
    }
  }

  /** loadMarkdownDir's outcome: a missing directory gives no items and no error, another listing
      error is returned as it is, and a listing gives the kept entries' values in listing order,
      or the error of the first kept entry that fails (prefixed with its name). */
  lemma DirItemsMeaning<T>(fs: FileSystem, dir: string, decode: (Bytes, string) -> Result<T, string>)
    ensures fs.readDir(dir).DirFailed? && fs.readDir(dir).notExist ==> DirItems(fs, dir, decode) == Success([])
    ensures fs.readDir(dir).DirFailed? && !fs.readDir(dir).notExist ==>
      DirItems(fs, dir, decode) == Failure(fs.readDir(dir).reason)
    ensures fs.readDir(dir).Listing? ==>
      var ks := Kept(fs.readDir(dir).entries);
      (DirItems(fs, dir, decode).Success? <==> forall k :: 0 <= k < |ks| ==> LoadEntry(fs, dir, ks[k], decode).Success?)
      && (DirItems(fs, dir, decode).Success? ==>
           |DirItems(fs, dir, decode).value| == |ks|
           && forall k :: 0 <= k < |ks| ==> DirItems(fs, dir, decode).value[k] == LoadEntry(fs, dir, ks[k], decode).value)
      && (DirItems(fs, dir, decode).Failure? ==>
           exists k :: 0 <= k < |ks|
             && LoadEntry(fs, dir, ks[k], decode) == Failure(DirItems(fs, dir, decode).error)
             && forall j :: 0 <= j < k ==> LoadEntry(fs, dir, ks[j], decode).Success?)
  {
    if fs.readDir(dir).Listing? {
      var es := fs.readDir(dir).entries;
      LoadEntriesIsLoadAll(fs, dir, es, decode);
      LoadAllSuccess(fs, dir, Kept(es), decode);
      if DirItems(fs, dir, decode).Failure? {
        LoadAllFailure(fs, dir, Kept(es), decode);
      }
    }
  }

  /** A loaded entry's value is its file's bytes decoded under the slug, which is the file name
      without ".md". */
  lemma LoadEntrySlug<T>(fs: FileSystem, dir: string, e: DirEntry, decode: (Bytes, string) -> Result<T, string>)
    requires Eligible(e) && LoadEntry(fs, dir, e, decode).Success?
    ensures fs.readFile(Join(dir, e.name)).Contents?
    ensures TrimSuffix(e.name, ".md") + ".md" == e.name
    ensures LoadEntry(fs, dir, e, decode) == decode(fs.readFile(Join(dir, e.name)).data, TrimSuffix(e.name, ".md"))
  {
  }

  /** The listing of the loader test: a Markdown file, a text file and a sub-directory. */
  lemma KeptExample()
    ensures Kept([DirEntry("post.md", false), DirEntry("readme.txt", false), DirEntry("subdir", true)])
         == [DirEntry("post.md", false)]
  {
    var es := [DirEntry("post.md", false), DirEntry("readme.txt", false), DirEntry("subdir", true)];
    assert es[..2][..1] == [DirEntry("post.md", false)];
    assert es[..2] == [DirEntry("post.md", false), DirEntry("readme.txt", false)];
    assert !HasSuffix("readme.txt", ".md") by { assert "readme.txt"[7..] != ".md"; }
    assert HasSuffix("post.md", ".md") by { assert "post.md"[4..] == ".md"; }
  }

  /** A loaded item's slug is what the decoder was given; then the loaded items of a listing with
      distinct names have distinct slugs, each its file name without ".md". */
  lemma {:induction false} LoadedSlugs<T>(
    fs: FileSystem, dir: string, decode: (Bytes, string) -> Result<T, string>, slugOf: T -> string)
    requires forall data, slug :: decode(data, slug).Success? ==> slugOf(decode(data, slug).value) == slug
    requires fs.readDir(dir).Listing? && DistinctNames(fs.readDir(dir).entries)
    requires DirItems(fs, dir, decode).Success?
    ensures DistinctSlugs(DirItems(fs, dir, decode).value, slugOf)
    ensures |DirItems(fs, dir, decode).value| == |Kept(fs.readDir(dir).entries)|
    ensures forall k :: 0 <= k < |DirItems(fs, dir, decode).value| ==>
      slugOf(DirItems(fs, dir, decode).value[k]) + ".md" == Kept(fs.readDir(dir).entries)[k].name
  {
    var es := fs.readDir(dir).entries;
    var ks := Kept(es);
    var xs := DirItems(fs, dir, decode).value;
    DirItemsMeaning(fs, dir, decode);
    KeptDistinct(es);
    forall k | 0 <= k < |xs| ensures slugOf(xs[k]) + ".md" == ks[k].name {
      LoadEntrySlug(fs, dir, ks[k], decode);
    }
    forall i, j | 0 <= i < j < |xs| ensures slugOf(xs[i]) != slugOf(xs[j]) {
      assert ks[i].name != ks[j].name;
    }
  }

  // ---------------------------------------------------------------- slug and tag indexes

  function PostSlug(p: BlogPost): string { p.slug }

  function ProjectSlug(p: Project): string { p.slug }

  predicate DistinctSlugs<T>(xs: seq<T>, slugOf: T -> string) {
    forall i, j :: 0 <= i < j < |xs| ==> slugOf(xs[i]) != slugOf(xs[j])
  }

  /** The map the index loop builds: every item under its slug, a later item replacing an
      earlier one with the same slug. */
  function SlugIndex<T>(xs: seq<T>, slugOf: T -> string): map<string, T> {
    if xs == [] then map[] else SlugIndex(xs[..|xs| - 1], slugOf)[slugOf(xs[|xs| - 1]) := xs[|xs| - 1]]
  }

  /** The index has exactly the items' slugs as keys, and maps each to an item with that slug. */
  lemma {:induction false} SlugIndexKeys<T>(xs: seq<T>, slugOf: T -> string)
    ensures forall s :: s in SlugIndex(xs, slugOf) <==> exists i :: 0 <= i < |xs| && slugOf(xs[i]) == s
    ensures forall s :: s in SlugIndex(xs, slugOf) ==>
      exists i :: 0 <= i < |xs| && xs[i] == SlugIndex(xs, slugOf)[s] && slugOf(xs[i]) == s
  {
    if xs != [] {
      var init := xs[..|xs| - 1];
      SlugIndexKeys(init, slugOf);
      assert forall i :: 0 <= i < |init| ==> init[i] == xs[i];
    }
  }

  /** With distinct slugs every item is found under its own slug, and there are as many keys
      as items. */
  lemma {:induction false} SlugIndexFinds<T>(xs: seq<T>, slugOf: T -> string)
    requires DistinctSlugs(xs, slugOf)
    ensures forall i :: 0 <= i < |xs| ==>
      slugOf(xs[i]) in SlugIndex(xs, slugOf) && SlugIndex(xs, slugOf)[slugOf(xs[i])] == xs[i]
    ensures |SlugIndex(xs, slugOf)| == |xs|
  {
    if xs != [] {
      var init := xs[..|xs| - 1];
      var last := xs[|xs| - 1];
      assert forall i :: 0 <= i < |init| ==> init[i] == xs[i];
      assert DistinctSlugs(init, slugOf);
      SlugIndexFinds(init, slugOf);
      SlugIndexKeys(init, slugOf);
      assert slugOf(last) !in SlugIndex(init, slugOf);
    }
  }

  /** A permutation of items with distinct slugs has distinct slugs. */
  lemma DistinctSlugsPermutation<T>(xs: seq<T>, ys: seq<T>, slugOf: T -> string)
    requires multiset(xs) == multiset(ys) && DistinctSlugs(xs, slugOf)
    ensures DistinctSlugs(ys, slugOf)
  {
    forall i, j | 0 <= i < j < |ys| ensures slugOf(ys[i]) != slugOf(ys[j]) {
      if ys[i] == ys[j] {
        assert ys == ys[..j] + ys[j..];
        assert ys[i] in multiset(ys[..j]) && ys[j] in multiset(ys[j..]);
        assert multiset(ys)[ys[i]] >= 2;
        CountAtMostOne(xs, ys[i], slugOf);
      } else {
        assert ys[i] in multiset(xs) && ys[j] in multiset(xs);
        var a :| 0 <= a < |xs| && xs[a] == ys[i];
        var b :| 0 <= b < |xs| && xs[b] == ys[j];
        assert a != b;
      }
    }
  }

  lemma {:induction false} CountAtMostOne<T>(xs: seq<T>, x: T, slugOf: T -> string)
    requires DistinctSlugs(xs, slugOf)
    ensures multiset(xs)[x] <= 1
  {
    if xs != [] {
      var init := xs[..|xs| - 1];
      assert xs == init + [xs[|xs| - 1]];
      assert forall i :: 0 <= i < |init| ==> init[i] == xs[i];
      assert DistinctSlugs(init, slugOf);
      CountAtMostOne(init, x, slugOf);
      if x == xs[|xs| - 1] {
        assert x !in init;
      }
    }
  }

  /** The bucket of tag t, empty when t is not a key. */
  function Bucket(m: map<string, seq<BlogPost>>, t: string): seq<BlogPost> {
    if t in m then m[t] else []
  }

  /** The inner loop over one post's tags: the post is appended to the bucket of each tag. */
  function AddTags(m: map<string, seq<BlogPost>>, p: BlogPost, tags: seq<string>): map<string, seq<BlogPost>> {
    if tags == [] then m
    else
      var m' := AddTags(m, p, tags[..|tags| - 1]);
      var t := tags[|tags| - 1];
      m'[t := Bucket(m', t) + [p]]
  }

  /** The map the tag loop builds over the sorted posts. */
  function TagIndex(ps: seq<BlogPost>): map<string, seq<BlogPost>> {
    if ps == [] then map[] else AddTags(TagIndex(ps[..|ps| - 1]), ps[|ps| - 1], ps[|ps| - 1].tags)
  }

  /** Occurrences of t in tags. */
  function Count(tags: seq<string>, t: string): (n: nat)
    ensures n > 0 <==> t in tags
  {
    if tags == [] then 0
    else
      assert tags == tags[..|tags| - 1] + [tags[|tags| - 1]];
      Count(tags[..|tags| - 1], t) + (if tags[|tags| - 1] == t then 1 else 0)
  }

  function Repeat(p: BlogPost, n: nat): (r: seq<BlogPost>)
    ensures |r| == n && forall k :: 0 <= k < n ==> r[k] == p
  {
    seq(n, _ => p)
  }

  /** Reference reading of a tag bucket: the posts in order, each present once per occurrence
      of t among its tags. */
  function TagBucket(ps: seq<BlogPost>, t: string): seq<BlogPost> {
    if ps == [] then [] else TagBucket(ps[..|ps| - 1], t) + Repeat(ps[|ps| - 1], Count(ps[|ps| - 1].tags, t))
  }

  /** Adding a post under its tags appends it to the bucket of t once per occurrence of t. */
  lemma {:induction false} AddTagsEffect(m: map<string, seq<BlogPost>>, p: BlogPost, tags: seq<string>, t: string)
    ensures Bucket(AddTags(m, p, tags), t) == Bucket(m, t) + Repeat(p, Count(tags, t))
    ensures t in AddTags(m, p, tags) <==> t in m || t in tags
  {
    if tags == [] {
      assert Repeat(p, 0) == [];
    } else {
      var init := tags[..|tags| - 1];
      var last := tags[|tags| - 1];
      AddTagsEffect(m, p, init, t);
      assert tags == init + [last];
      AddTagsLast(m, p, tags, t);
    }
  }

  /** The step of AddTagsEffect: the last tag either is t, adding one copy, or leaves t alone. */
  lemma AddTagsLast(m: map<string, seq<BlogPost>>, p: BlogPost, tags: seq<string>, t: string)
    requires tags != []
    ensures var init := tags[..|tags| - 1];
      Bucket(AddTags(m, p, tags), t) == Bucket(AddTags(m, p, init), t)
        + (if tags[|tags| - 1] == t then [p] else [])
      && Count(tags, t) == Count(init, t) + (if tags[|tags| - 1] == t then 1 else 0)
      && (t in AddTags(m, p, tags) <==> t in AddTags(m, p, init) || t == tags[|tags| - 1])
      && Repeat(p, Count(tags, t)) == Repeat(p, Count(init, t)) + (if tags[|tags| - 1] == t then [p] else [])
  {
  }

  /** The tag index holds, under each tag, exactly the reference bucket, and its keys are the
      tags that occur on some post. */
  lemma {:induction false} TagIndexMeaning(ps: seq<BlogPost>, t: string)
    ensures Bucket(TagIndex(ps), t) == TagBucket(ps, t)
    ensures t in TagIndex(ps) <==> exists i :: 0 <= i < |ps| && t in ps[i].tags
  {
    if ps != [] {
      var init := ps[..|ps| - 1];
      var last := ps[|ps| - 1];
      TagIndexMeaning(init, t);
      AddTagsEffect(TagIndex(init), last, last.tags, t);
      assert forall i :: 0 <= i < |init| ==> init[i] == ps[i];
      if t in last.tags {
        assert exists i :: 0 <= i < |ps| && t in ps[i].tags by { assert t in ps[|ps| - 1].tags; }
      }
    }
  }

  /** A post is in the bucket of t exactly when it is one of the posts and carries t. */
  lemma {:induction false} TagBucketMembers(ps: seq<BlogPost>, t: string, q: BlogPost)
    ensures q in TagBucket(ps, t) <==> q in ps && t in q.tags
  {
    if ps != [] {
      var init := ps[..|ps| - 1];
      TagBucketMembers(init, t, q);
      assert ps == init + [ps[|ps| - 1]];
      var r := Repeat(ps[|ps| - 1], Count(ps[|ps| - 1].tags, t));
      if |r| > 0 {
        assert r[0] == ps[|ps| - 1];
      }
      assert q in r <==> q == ps[|ps| - 1] && |r| > 0;
    }
  }

  // ---------------------------------------------------------------- blog posts and projects

  /** The order sort.Slice is given: newer first. */
  function PostNewer(p: BlogPost, q: BlogPost): bool { After(p.date, q.date) }

  function ProjectNewer(p: Project, q: Project): bool { After(p.date, q.date) }

  lemma AfterOrder(x: Date, y: Date, z: Date)
    ensures !After(x, x)
    ensures After(x, y) && After(y, z) ==> After(x, z)
    ensures After(x, z) ==> After(x, y) || After(y, z)
  {
  }

  lemma PostNewerOrder()
    ensures StrictWeakOrder(PostNewer)
  {
    forall x: BlogPost, y: BlogPost, z: BlogPost { AfterOrder(x.date, y.date, z.date); }
  }

  lemma ProjectNewerOrder()
    ensures StrictWeakOrder(ProjectNewer)
  {
    forall x: Project, y: Project, z: Project { AfterOrder(x.date, y.date, z.date); }
  }

  /** What loadBlogPosts leaves in the store. */
  datatype PostsIndex = PostsIndex(posts: seq<BlogPost>, bySlug: map<string, BlogPost>, byTag: map<string, seq<BlogPost>>)

  /** The posts are the loaded ones rearranged newest first (ties in any order), and both
      indexes are built over that order. */
  ghost predicate IsPostsIndexOf(ix: PostsIndex, loaded: seq<BlogPost>) {
    multiset(ix.posts) == multiset(loaded)
    && SortedBy(ix.posts, PostNewer)
    && ix.bySlug == SlugIndex(ix.posts, PostSlug)
    && ix.byTag == TagIndex(ix.posts)
  }

  /** loadBlogPosts: loads the directory, sorts newest first, then indexes by slug and tag. */
  method LoadBlogPosts(fs: FileSystem, eng: Engines, dir: string) returns (r: Result<PostsIndex, string>)
    ensures DirItems(fs, dir, PostDecoder(eng)).Failure? ==> r == Failure(DirItems(fs, dir, PostDecoder(eng)).error)
    ensures DirItems(fs, dir, PostDecoder(eng)).Success? ==>
      r.Success? && IsPostsIndexOf(r.value, DirItems(fs, dir, PostDecoder(eng)).value)
  {
    var loaded := LoadMarkdownDir(fs, dir, PostDecoder(eng));
    if loaded.Failure? {
      return Failure(loaded.error);
    }
    var posts := SortPosts(loaded.value);
    var bySlug, byTag := IndexPosts(posts);
    return Success(PostsIndex(posts, bySlug, byTag));
  }

  /** The sort.Slice call of loadBlogPosts: newest first. */
  method SortPosts(items: seq<BlogPost>) returns (posts: seq<BlogPost>)
    ensures multiset(posts) == multiset(items) && SortedBy(posts, PostNewer)
  {
    var a := new BlogPost[|items|](i requires 0 <= i < |items| => items[i]);
    assert a[..] == items;
    PostNewerOrder();
    InsertionSort(a, PostNewer);
    posts := a[..];
  }

  /** The indexing loop of loadBlogPosts: by slug, and by tag in post order. */
  method IndexPosts(posts: seq<BlogPost>) returns (bySlug: map<string, BlogPost>, byTag: map<string, seq<BlogPost>>)
    ensures bySlug == SlugIndex(posts, PostSlug)
    ensures byTag == TagIndex(posts)
  {
    bySlug := map[];
    byTag := map[];
    var i := 0;
    while i < |posts|
      invariant 0 <= i <= |posts|
      invariant bySlug == SlugIndex(posts[..i], PostSlug)
      invariant byTag == TagIndex(posts[..i])
    {
      var p := posts[i];
      assert posts[..i + 1][..i] == posts[..i];
      bySlug := bySlug[p.slug := p];
      var j := 0;
      while j < |p.tags|
        invariant 0 <= j <= |p.tags|
        invariant byTag == AddTags(TagIndex(posts[..i]), p, p.tags[..j])
      {
        var tag := p.tags[j];
        assert p.tags[..j + 1][..j] == p.tags[..j];
        byTag := byTag[tag := (if tag in byTag then byTag[tag] else []) + [p]];
        j := j + 1;
      }
      assert p.tags[..j] == p.tags;
      i := i + 1;
    }
    assert posts[..i] == posts;
  }

  /** What loadProjects leaves in the store. */
  datatype ProjectsIndex = ProjectsIndex(projects: seq<Project>, bySlug: map<string, Project>)

  ghost predicate IsProjectsIndexOf(ix: ProjectsIndex, loaded: seq<Project>) {
    multiset(ix.projects) == multiset(loaded)
    && SortedBy(ix.projects, ProjectNewer)
    && ix.bySlug == SlugIndex(ix.projects, ProjectSlug)
  }

  /** loadProjects: loads the directory, sorts newest first, then indexes by slug. */
  method LoadProjects(fs: FileSystem, eng: Engines, dir: string) returns (r: Result<ProjectsIndex, string>)
    ensures DirItems(fs, dir, ProjectDecoder(eng)).Failure? ==> r == Failure(DirItems(fs, dir, ProjectDecoder(eng)).error)
    ensures DirItems(fs, dir, ProjectDecoder(eng)).Success? ==>
      r.Success? && IsProjectsIndexOf(r.value, DirItems(fs, dir, ProjectDecoder(eng)).value)
  {
    var loaded := LoadMarkdownDir(fs, dir, ProjectDecoder(eng));
    if loaded.Failure? {
      return Failure(loaded.error);
    }
    var projects := SortProjects(loaded.value);
    var bySlug := IndexProjects(projects);
    return Success(ProjectsIndex(projects, bySlug));
  }

  /** The sort.Slice call of loadProjects: newest first. */
  method SortProjects(items: seq<Project>) returns (projects: seq<Project>)
    ensures multiset(projects) == multiset(items) && SortedBy(projects, ProjectNewer)
  {
    var a := new Project[|items|](i requires 0 <= i < |items| => items[i]);
    assert a[..] == items;
    ProjectNewerOrder();
    InsertionSort(a, ProjectNewer);
    projects := a[..];
  }

  /** The indexing loop of loadProjects. */
  method IndexProjects(projects: seq<Project>) returns (bySlug: map<string, Project>)
    ensures bySlug == SlugIndex(projects, ProjectSlug)
  {
    bySlug := map[];
    var i := 0;
    while i < |projects|
      invariant 0 <= i <= |projects|
      invariant bySlug == SlugIndex(projects[..i], ProjectSlug)
    {
      assert projects[..i + 1][..i] == projects[..i];
      bySlug := bySlug[projects[i].slug := projects[i]];
      i := i + 1;
    }
    assert projects[..i] == projects;
  }

  // ---------------------------------------------------------------- inline Markdown

  /** renderInlineMarkdown: "" stays "" without calling goldmark; if goldmark fails the input is
      HTML-escaped; otherwise the HTML is trimmed, every "<p>" and then every "</p>" removed in one
      left-to-right pass each, and the result trimmed again. */
  function RenderInline(eng: Engines, s: string): (h: HTML)
    ensures s == "" ==> h == ""
  {
    if s == "" then ""
    else
      match eng.convertInline(s)
      case Failure(_) => HTMLEscape(s)
      case Success(html) => TrimSpace(RemoveAll(RemoveAll(TrimSpace(html), "<p>"), "</p>"))
  }

  /** The empty string renders as itself whatever goldmark would do with it. */
  lemma RenderInlineEmpty(eng: Engines, other: Engines)
    ensures RenderInline(eng, "") == RenderInline(other, "") == ""
  {
  }

  /** When goldmark fails, the fallback carries no markup rune. */
  lemma RenderInlineFallback(eng: Engines, s: string)
    requires s != "" && eng.convertInline(s).Failure?
    ensures RenderInline(eng, s) == HTMLEscape(s)
    ensures forall i :: 0 <= i < |RenderInline(eng, s)| ==> !IsMarkup(RenderInline(eng, s)[i])
  {
  }

  /** No "<p>" starts inside t + "</p>" unless it starts inside t. */
  lemma NoOpenTagAcross(t: string)
    requires !Contains(t, "<p>")
    ensures !Contains(t + "</p>", "<p>")
  {
    var u := t + "</p>";
    forall k ensures !MatchAt(u, k, "<p>") {
      if 0 <= k && k + 3 <= |u| {
        if k + 3 <= |t| {
          assert u[k..k + 3] == t[k..k + 3];
          assert !MatchAt(t, k, "<p>");
        } else {
          assert u[|t|] == '<' && u[|t| + 1] == '/' && u[|t| + 2] == 'p' && u[|t| + 3] == '>';
          assert u[k..k + 3][0] == u[k] && u[k..k + 3][1] == u[k + 1] && u[k..k + 3][2] == u[k + 2];
        }
      }
    }
  }

  /** No "</p>" starts inside t + "</p>" before the final one unless it starts inside t. */
  lemma NoCloseTagBefore(t: string)
    requires !Contains(t, "</p>")
    ensures forall k :: 0 <= k < |t| ==> !MatchAt(t + "</p>", k, "</p>")
  {
    var u := t + "</p>";
    forall k | 0 <= k < |t| ensures !MatchAt(u, k, "</p>") {
      if k + 4 <= |u| {
        if k + 4 <= |t| {
          assert u[k..k + 4] == t[k..k + 4];
          assert !MatchAt(t, k, "</p>");
        } else {
          assert u[|t|] == '<' && u[|t| + 1] == '/' && u[|t| + 2] == 'p';
          assert u[k..k + 4][1] == u[k + 1] && u[k..k + 4][2] == u[k + 2] && u[k..k + 4][3] == u[k + 3];
        }
      }
    }
  }

  /** goldmark's usual output for a one-paragraph snippet, "<p>" + t + "</p>" and a newline,
      comes back as t trimmed, when t holds no paragraph tag of its own. */
  lemma RenderInlineParagraph(eng: Engines, s: string, t: string)
    requires s != "" && eng.convertInline(s) == Success("<p>" + t + "</p>\n")
    requires !Contains(t, "<p>") && !Contains(t, "</p>")
    ensures RenderInline(eng, s) == TrimSpace(t)
  {
    var x := "<p>" + t + "</p>";
    assert TrimSpace("<p>" + t + "</p>\n") == x by {
      assert "<p>" + t + "</p>\n" == x + "\n";
      TrimSpaceNewline(x);
    }
    assert RemoveAll(x, "<p>") == t + "</p>" by {
      assert x == "<p>" + (t + "</p>");
      RemoveAllLeading("<p>", t + "</p>");
      NoOpenTagAcross(t);
      RemoveAllAbsent(t + "</p>", "<p>");
    }
    assert RemoveAll(t + "</p>", "</p>") == t by {
      NoCloseTagBefore(t);
      RemoveAllTrailing(t, "</p>");
    }
  }

  /** Each removal is a single pass: a tag that the first removal assembles survives. */
  lemma RenderInlineSinglePass(eng: Engines, s: string)
    requires s != "" && eng.convertInline(s) == Success("<<p>p>")
    ensures RenderInline(eng, s) == "<p>"
  {
    TrimSpaceKeeps("<<p>p>");
    RemoveOpenTagOnce();
    assert RemoveAll("<p>", "</p>") == "<p>";
    TrimSpaceKeeps("<p>");
  }

  lemma RemoveOpenTagOnce()
    ensures RemoveAll("<<p>p>", "<p>") == "<p>"
  {
    var h := "<<p>p>";
    assert h[..3][1] != "<p>"[1];
    assert h[1..] == "<p>p>";
    var t := "<p>p>";
    assert t[..3] == "<p>" && t[3..] == "p>";
    assert RemoveAll(t, "<p>") == "p>";
  }

  // ---------------------------------------------------------------- résumé bullets

  /** One bullet rendered: its text from its raw text and new sub-bullets rendered from its raw
      sub-bullets; the raw fields are kept. */
  function RenderOne(eng: Engines, b: ResumeBullet): ResumeBullet
    decreases b, 1
  {
    b.(text := RenderInline(eng, b.rawText), sub := RenderTree(eng, b.rawSub))
  }

  function RenderTree(eng: Engines, bs: seq<ResumeBullet>): (r: seq<ResumeBullet>)
    ensures |r| == |bs|
    decreases bs, 0
  {
    seq(|bs|, i requires 0 <= i < |bs| => RenderOne(eng, bs[i]))
  }

  /** r is b rendered: same raw text and raw sub-bullets, rendered text, and one rendered
      sub-bullet per raw sub-bullet, at every depth. */
  predicate RenderedFrom(eng: Engines, r: ResumeBullet, b: ResumeBullet)
    decreases b
  {
    r.rawText == b.rawText && r.rawSub == b.rawSub && r.text == RenderInline(eng, b.rawText)
    && |r.sub| == |b.rawSub|
    && forall k :: 0 <= k < |r.sub| ==> RenderedFrom(eng, r.sub[k], b.rawSub[k])
  }

  /** Rendering preserves the tree's shape at every depth. */
  lemma {:induction false} RenderOneShape(eng: Engines, b: ResumeBullet)
    ensures RenderedFrom(eng, RenderOne(eng, b), b)
    decreases b
  {
    forall k | 0 <= k < |b.rawSub| ensures RenderedFrom(eng, RenderOne(eng, b.rawSub[k]), b.rawSub[k]) {
      RenderOneShape(eng, b.rawSub[k]);
    }
  }

  /** ... and that shape determines the rendered tree. */
  lemma {:induction false} RenderedFromUnique(eng: Engines, r: ResumeBullet, b: ResumeBullet)
    requires RenderedFrom(eng, r, b)
    ensures r == RenderOne(eng, b)
    decreases b
  {
    forall k | 0 <= k < |r.sub| ensures r.sub[k] == RenderOne(eng, b.rawSub[k]) {
      RenderedFromUnique(eng, r.sub[k], b.rawSub[k]);
    }
    assert r.sub == RenderTree(eng, b.rawSub);
  }

  /** Rendering reads only the raw fields and keeps them, so rendering again changes nothing. */
  lemma RenderTreeIdempotent(eng: Engines, bs: seq<ResumeBullet>)
    ensures RenderTree(eng, RenderTree(eng, bs)) == RenderTree(eng, bs)
  {
    var r := RenderTree(eng, bs);
    forall i | 0 <= i < |bs| ensures RenderOne(eng, r[i]) == r[i] {
      assert r[i] == RenderOne(eng, bs[i]);
    }
  }

  /** Number of bullets in a forest, counting along the raw sub-bullets. */
  function TreeSize(bs: seq<ResumeBullet>): nat
    decreases bs
  {
    if bs == [] then 0 else 1 + TreeSize(bs[0].rawSub) + TreeSize(bs[1..])
  }

  lemma {:induction false} ChildrenSmaller(bs: seq<ResumeBullet>, i: nat)
    requires i < |bs|
    ensures TreeSize(bs[i].rawSub) < TreeSize(bs)
    decreases i
  {
    if i > 0 {
      ChildrenSmaller(bs[1..], i - 1);
      assert bs[1..][i - 1] == bs[i];
    }
  }

  /** renderBullets: renders each bullet in place, depth first. */
  method RenderBullets(eng: Engines, a: array<ResumeBullet>)
    modifies a
    ensures a[..] == RenderTree(eng, old(a[..]))
    decreases TreeSize(a[..]), 1
  {
    ghost var orig := a[..];
    var i := 0;
    while i < a.Length
      invariant 0 <= i <= a.Length
      invariant forall k :: 0 <= k < i ==> a[k] == RenderOne(eng, orig[k])
      invariant forall k :: i <= k < a.Length ==> a[k] == orig[k]
    {
      ChildrenSmaller(orig, i);
      RenderBulletAt(eng, a, i);
      i := i + 1;
    }
    assert forall k :: 0 <= k < a.Length ==> a[..][k] == RenderTree(eng, orig)[k];
  }

  /** The loop body of renderBullets: the bullet's text is rendered, and its sub-bullets become a
      fresh copy of the raw ones, rendered in turn. */
  method RenderBulletAt(eng: Engines, a: array<ResumeBullet>, i: nat)
    requires i < a.Length
    modifies a
    ensures a[i] == RenderOne(eng, old(a[i]))
    ensures forall k :: 0 <= k < a.Length && k != i ==> a[k] == old(a[k])
    decreases TreeSize(a[i].rawSub) + 1, 0
  {
    var b := a[i];
    var sub := new ResumeBullet[|b.rawSub|](k requires 0 <= k < |b.rawSub| => b.rawSub[k]);
    assert sub[..] == b.rawSub;
    RenderBullets(eng, sub);
    a[i] := b.(text := RenderInline(eng, b.rawText), sub := sub[..]);
  }

  // ---------------------------------------------------------------- résumé post-processing

  /** renderEntry: the date range and the rendered bullets. */
  function RenderEntry(eng: Engines, e: ResumeEntry): ResumeEntry {
    e.(dateRange := FormatDateRange(e.start, e.end), bullets := RenderTree(eng, e.bullets))
  }

  function RenderEntryAll(eng: Engines, es: seq<ResumeEntry>): (r: seq<ResumeEntry>)
    ensures |r| == |es|
  {
    seq(|es|, i requires 0 <= i < |es| => RenderEntry(eng, es[i]))
  }

  function RenderInlineAll(eng: Engines, xs: seq<string>): (r: seq<HTML>)
    ensures |r| == |xs|
  {
    seq(|xs|, i requires 0 <= i < |xs| => RenderInline(eng, xs[i]))
  }

  function RenderPresentation(eng: Engines, p: ResumePresentation): ResumePresentation {
    p.(venue := RenderInline(eng, p.rawVenue), dateFormatted := FormatDate(p.date))
  }

  function RenderPubSection(eng: Engines, s: ResumePubSection): ResumePubSection {
    s.(items := RenderInlineAll(eng, s.rawItems))
  }

  function RenderOSSProject(eng: Engines, p: ResumeOSSProject): ResumeOSSProject {
    p.(bullets := RenderInlineAll(eng, p.rawBullets))
  }

  function RenderOSSSection(eng: Engines, s: ResumeOSSSection): ResumeOSSSection {
    s.(projects := seq(|s.projects|, j requires 0 <= j < |s.projects| => RenderOSSProject(eng, s.projects[j])))
  }

  function RenderPresentationAll(eng: Engines, ps: seq<ResumePresentation>): (r: seq<ResumePresentation>)
    ensures |r| == |ps|
  {
    seq(|ps|, i requires 0 <= i < |ps| => RenderPresentation(eng, ps[i]))
  }

  function RenderPubAll(eng: Engines, ss: seq<ResumePubSection>): (r: seq<ResumePubSection>)
    ensures |r| == |ss|
  {
    seq(|ss|, i requires 0 <= i < |ss| => RenderPubSection(eng, ss[i]))
  }

  function RenderOSSAll(eng: Engines, ss: seq<ResumeOSSSection>): (r: seq<ResumeOSSSection>)
    ensures |r| == |ss|
  {
    seq(|ss|, i requires 0 <= i < |ss| => RenderOSSSection(eng, ss[i]))
  }

  /** The post-processing of loadResume applied to the decoded résumé. */
  function ProcessResume(eng: Engines, raw: Resume): (r: Resume)
    ensures r.name == raw.name && r.tagline == raw.tagline && r.rawSummary == raw.rawSummary
    ensures r.skills == raw.skills && r.awards == raw.awards
    ensures |r.experience| == |raw.experience| && |r.education| == |raw.education| && |r.research| == |raw.research|
  {
    raw.(
      summary := RenderInline(eng, raw.rawSummary),
      experience := RenderEntryAll(eng, raw.experience),
      education := RenderEntryAll(eng, raw.education),
      research := RenderEntryAll(eng, raw.research),
      presentations := RenderPresentationAll(eng, raw.presentations),
      publications := RenderPubAll(eng, raw.publications),
      openSource := RenderOSSAll(eng, raw.openSource))
  }

  /** A section of entries after rendering: one entry per raw entry, each keeping its own
      fields, with its date range formatted from Start and End and each bullet rendered from
      the raw one. */
  ghost predicate EntriesRendered(eng: Engines, r: seq<ResumeEntry>, raw: seq<ResumeEntry>) {
    |r| == |raw|
    && forall i :: 0 <= i < |r| ==>
      r[i].dateRange == FormatDateRange(raw[i].start, raw[i].end)
      && r[i].title == raw[i].title && r[i].organization == raw[i].organization
      && r[i].location == raw[i].location && r[i].note == raw[i].note
      && r[i].start == raw[i].start && r[i].end == raw[i].end
      && |r[i].bullets| == |raw[i].bullets|
      && forall k :: 0 <= k < |r[i].bullets| ==> RenderedFrom(eng, r[i].bullets[k], raw[i].bullets[k])
  }

  /** renderEntry over a section does what renderEntry promises for each entry. */
  lemma RenderEntryAllMeaning(eng: Engines, es: seq<ResumeEntry>)
    ensures EntriesRendered(eng, RenderEntryAll(eng, es), es)
  {
    var r := RenderEntryAll(eng, es);
    forall i, k | 0 <= i < |r| && 0 <= k < |r[i].bullets|
      ensures RenderedFrom(eng, r[i].bullets[k], es[i].bullets[k])
    {
      RenderOneShape(eng, es[i].bullets[k]);
    }
  }

  /** What loadResume does to a decoded résumé: the summary, venues, publication items and
      open-source bullets rendered element-wise, every entry section rendered as renderEntry
      promises, presentation dates formatted, and the other fields untouched. */
  lemma ProcessResumeMeaning(eng: Engines, raw: Resume)
    ensures var r := ProcessResume(eng, raw);
      r.name == raw.name && r.tagline == raw.tagline && r.rawSummary == raw.rawSummary
      && r.skills == raw.skills && r.awards == raw.awards
      && r.summary == RenderInline(eng, raw.rawSummary)
      && EntriesRendered(eng, r.experience, raw.experience)
      && EntriesRendered(eng, r.education, raw.education)
      && EntriesRendered(eng, r.research, raw.research)
      && |r.presentations| == |raw.presentations|
      && (forall i :: 0 <= i < |r.presentations| ==>
            r.presentations[i].dateFormatted == FormatDate(raw.presentations[i].date)
            && r.presentations[i].venue == RenderInline(eng, raw.presentations[i].rawVenue)
            && r.presentations[i].title == raw.presentations[i].title
            && r.presentations[i].date == raw.presentations[i].date)
      && |r.publications| == |raw.publications|
      && (forall i :: 0 <= i < |r.publications| ==>
            r.publications[i].section == raw.publications[i].section
            && r.publications[i].rawItems == raw.publications[i].rawItems
            && |r.publications[i].items| == |raw.publications[i].rawItems|
            && forall j :: 0 <= j < |r.publications[i].items| ==>
                 r.publications[i].items[j] == RenderInline(eng, raw.publications[i].rawItems[j]))
      && |r.openSource| == |raw.openSource|
      && (forall i :: 0 <= i < |r.openSource| ==>
            |r.openSource[i].projects| == |raw.openSource[i].projects|
            && forall j :: 0 <= j < |r.openSource[i].projects| ==>
                 |r.openSource[i].projects[j].bullets| == |raw.openSource[i].projects[j].rawBullets|
                 && forall k :: 0 <= k < |r.openSource[i].projects[j].bullets| ==>
                      r.openSource[i].projects[j].bullets[k] == RenderInline(eng, raw.openSource[i].projects[j].rawBullets[k]))
  {
    RenderEntryAllMeaning(eng, raw.experience);
    RenderEntryAllMeaning(eng, raw.education);
    RenderEntryAllMeaning(eng, raw.research);
  }

  /** Post-processing reads only what yaml decoded and keeps it, so doing it twice is doing it once. */
  lemma ProcessResumeIdempotent(eng: Engines, raw: Resume)
    ensures ProcessResume(eng, ProcessResume(eng, raw)) == ProcessResume(eng, raw)
  {
    var r := ProcessResume(eng, raw);
    forall i | 0 <= i < |raw.experience| ensures RenderEntry(eng, r.experience[i]) == r.experience[i] {
      RenderTreeIdempotent(eng, raw.experience[i].bullets);
    }
    forall i | 0 <= i < |raw.education| ensures RenderEntry(eng, r.education[i]) == r.education[i] {
      RenderTreeIdempotent(eng, raw.education[i].bullets);
    }
    forall i | 0 <= i < |raw.research| ensures RenderEntry(eng, r.research[i]) == r.research[i] {
      RenderTreeIdempotent(eng, raw.research[i].bullets);
    }
    assert RenderEntryAll(eng, r.experience) == r.experience;
    assert RenderEntryAll(eng, r.education) == r.education;
    assert RenderEntryAll(eng, r.research) == r.research;
    var r2 := ProcessResume(eng, r);
    assert r2.presentations == r.presentations;
    assert r2.publications == r.publications;
    forall i | 0 <= i < |r.openSource| ensures RenderOSSSection(eng, r.openSource[i]) == r.openSource[i] {
      assert RenderOSSSection(eng, r.openSource[i]).projects == r.openSource[i].projects;
    }
    assert r2.openSource == r.openSource;
  }

  /** renderEntry on the entry at a[i]: its date range and its bullets, rendered in place. */
  method RenderEntryAt(eng: Engines, a: array<ResumeEntry>, i: nat)
    requires i < a.Length
    modifies a
    ensures a[i] == RenderEntry(eng, old(a[i]))
    ensures forall k :: 0 <= k < a.Length && k != i ==> a[k] == old(a[k])
  {
    var e := a[i];
    var bullets := new ResumeBullet[|e.bullets|](k requires 0 <= k < |e.bullets| => e.bullets[k]);
    assert bullets[..] == e.bullets;
    RenderBullets(eng, bullets);
    a[i] := e.(dateRange := FormatDateRange(e.start, e.end), bullets := bullets[..]);
  }

  /** The entry loops of loadResume, each calling renderEntry on one element in place. */
  method RenderEntries(eng: Engines, a: array<ResumeEntry>)
    modifies a
    ensures a[..] == RenderEntryAll(eng, old(a[..]))
  {
    var i := 0;
    while i < a.Length
      invariant 0 <= i <= a.Length
      invariant forall k :: 0 <= k < i ==> a[k] == RenderEntry(eng, old(a[k]))
      invariant forall k :: i <= k < a.Length ==> a[k] == old(a[k])
    {
      RenderEntryAt(eng, a, i);
      i := i + 1;
    }
  }

  /** A freshly made slice filled with the rendering of each raw string. */
  method RenderItems(eng: Engines, raw: seq<string>) returns (items: seq<HTML>)
    ensures |items| == |raw|
    ensures forall j :: 0 <= j < |raw| ==> items[j] == RenderInline(eng, raw[j])
  {
    var out := new HTML[|raw|];
    var j := 0;
    while j < |raw|
      invariant 0 <= j <= |raw|
      invariant forall k :: 0 <= k < j ==> out[k] == RenderInline(eng, raw[k])
    {
      out[j] := RenderInline(eng, raw[j]);
      j := j + 1;
    }
    items := out[..];
  }

  /** The presentation loop of loadResume. */
  method RenderPresentations(eng: Engines, a: array<ResumePresentation>)
    modifies a
    ensures a[..] == RenderPresentationAll(eng, old(a[..]))
  {
    var i := 0;
    while i < a.Length
      invariant 0 <= i <= a.Length
      invariant forall k :: 0 <= k < i ==> a[k] == RenderPresentation(eng, old(a[k]))
      invariant forall k :: i <= k < a.Length ==> a[k] == old(a[k])
    {
      a[i] := RenderPresentation(eng, a[i]);
      i := i + 1;
    }
  }

  /** The publication loop of loadResume. */
  method RenderPublications(eng: Engines, a: array<ResumePubSection>)
    modifies a
    ensures a[..] == RenderPubAll(eng, old(a[..]))
  {
    var i := 0;
    while i < a.Length
      invariant 0 <= i <= a.Length
      invariant forall k :: 0 <= k < i ==> a[k] == RenderPubSection(eng, old(a[k]))
      invariant forall k :: i <= k < a.Length ==> a[k] == old(a[k])
    {
      var items := RenderItems(eng, a[i].rawItems);
      a[i] := a[i].(items := items);
      i := i + 1;
    }
  }

  /** The open-source loops of loadResume: every project of every section gets its bullets. */
  method RenderOpenSource(eng: Engines, a: array<ResumeOSSSection>)
    modifies a
    ensures a[..] == RenderOSSAll(eng, old(a[..]))
  {
    var i := 0;
    while i < a.Length
      invariant 0 <= i <= a.Length
      invariant forall k :: 0 <= k < i ==> a[k] == RenderOSSSection(eng, old(a[k]))
      invariant forall k :: i <= k < a.Length ==> a[k] == old(a[k])
    {
      var sec := a[i];
      var ps := new ResumeOSSProject[|sec.projects|](k requires 0 <= k < |sec.projects| => sec.projects[k]);
      var j := 0;
      while j < ps.Length
        modifies ps
        invariant 0 <= j <= ps.Length
        invariant forall k :: 0 <= k < j ==> ps[k] == RenderOSSProject(eng, sec.projects[k])
        invariant forall k :: j <= k < ps.Length ==> ps[k] == sec.projects[k]
      {
        var bullets := RenderItems(eng, ps[j].rawBullets);
        ps[j] := ps[j].(bullets := bullets);
        j := j + 1;
      }
      a[i] := sec.(projects := ps[..]);
      i := i + 1;
    }
  }

  /** What loadResume leaves in the store: no résumé when resume.yaml does not exist. */
  function ResumeOf(fs: FileSystem, eng: Engines, dir: string): (r: Result<Option<Resume>, string>)
    ensures r == Success(None) <==>
      fs.readFile(Join(dir, "resume.yaml")).FileFailed? && fs.readFile(Join(dir, "resume.yaml")).notExist
    ensures r.Success? && r.value.Some? ==>
      fs.readFile(Join(dir, "resume.yaml")).Contents?
      && eng.unmarshalResume(fs.readFile(Join(dir, "resume.yaml")).data).Success?
  {
    match fs.readFile(Join(dir, "resume.yaml"))
    case FileFailed(reason, notExist) => if notExist then Success(None) else Failure(reason)
    case Contents(data) =>
      match eng.unmarshalResume(data)
      case Failure(m) => Failure("parsing resume YAML: " + m)
      case Success(raw) => Success(Some(ProcessResume(eng, raw)))
  }

  /** loadResume: reads and decodes resume.yaml, then renders its parts section by section. */
  method LoadResume(fs: FileSystem, eng: Engines, dir: string) returns (r: Result<Option<Resume>, string>)
    ensures r == ResumeOf(fs, eng, dir)
  {
    var file := fs.readFile(Join(dir, "resume.yaml"));
    if file.FileFailed? {
      if file.notExist {
        return Success(None);
      }
      return Failure(file.reason);
    }
    var decoded := eng.unmarshalResume(file.data);
    if decoded.Failure? {
      return Failure("parsing resume YAML: " + decoded.error);
    }
    var resume := PostProcess(eng, decoded.value);
    return Success(Some(resume));
  }

  /** The second half of loadResume: summary, entries, presentations, publications and open-source
      projects rendered in place, one section after another. */
  method PostProcess(eng: Engines, raw: Resume) returns (resume: Resume)
    ensures resume == ProcessResume(eng, raw)
  {
    var summary := RenderInline(eng, raw.rawSummary);
    var experience := RenderEntrySection(eng, raw.experience);
    var education := RenderEntrySection(eng, raw.education);
    var research := RenderEntrySection(eng, raw.research);
    var presentations := new ResumePresentation[|raw.presentations|](i requires 0 <= i < |raw.presentations| => raw.presentations[i]);
    var publications := new ResumePubSection[|raw.publications|](i requires 0 <= i < |raw.publications| => raw.publications[i]);
    var openSource := new ResumeOSSSection[|raw.openSource|](i requires 0 <= i < |raw.openSource| => raw.openSource[i]);
    assert presentations[..] == raw.presentations && publications[..] == raw.publications;
    assert openSource[..] == raw.openSource;
    RenderPresentations(eng, presentations);
    RenderPublications(eng, publications);
    RenderOpenSource(eng, openSource);
    resume := raw.(summary := summary, experience := experience, education := education,
      research := research, presentations := presentations[..], publications := publications[..],
      openSource := openSource[..]);
  }

  /** One of the entry slices of the résumé, its entries rendered in place. */
  method RenderEntrySection(eng: Engines, es: seq<ResumeEntry>) returns (r: seq<ResumeEntry>)
    ensures r == RenderEntryAll(eng, es)
  {
    var a := new ResumeEntry[|es|](i requires 0 <= i < |es| => es[i]);
    assert a[..] == es;
    RenderEntries(eng, a);
    r := a[..];
  }

  // ---------------------------------------------------------------- the whole directory

  /** The error LoadFromDir returns, if any: the first failing part, wrapped with its name. */
  function LoadError(fs: FileSystem, eng: Engines, dir: string): Option<string> {
    var posts := DirItems(fs, Join(dir, "blog"), PostDecoder(eng));
    var projects := DirItems(fs, Join(dir, "projects"), ProjectDecoder(eng));
    var resume := ResumeOf(fs, eng, Join(dir, "resume"));
    if posts.Failure? then Some("loading blog posts: " + posts.error)
    else if projects.Failure? then Some("loading projects: " + projects.error)
    else if resume.Failure? then Some("loading resume: " + resume.error)
    else None
  }

  /** cs is a store LoadFromDir can return for dir. */
  ghost predicate IsLoadOf(cs: ContentStore, fs: FileSystem, eng: Engines, dir: string) {
    var posts := DirItems(fs, Join(dir, "blog"), PostDecoder(eng));
    var projects := DirItems(fs, Join(dir, "projects"), ProjectDecoder(eng));
    posts.Success? && IsPostsIndexOf(PostsIndex(cs.posts, cs.postsBySlug, cs.postsByTag), posts.value)
    && projects.Success? && IsProjectsIndexOf(ProjectsIndex(cs.projects, cs.projectsBySlug), projects.value)
    && ResumeOf(fs, eng, Join(dir, "resume")) == Success(cs.resume)
  }

  /** LoadFromDir: blog posts, then projects, then the résumé; any failure means no store. */
  method LoadFromDir(fs: FileSystem, eng: Engines, dir: string) returns (r: Result<ContentStore, string>)
    ensures LoadError(fs, eng, dir).Some? ==> r == Failure(LoadError(fs, eng, dir).value)
    ensures LoadError(fs, eng, dir).None? ==> r.Success? && IsLoadOf(r.value, fs, eng, dir)
  {
    var posts := LoadBlogPosts(fs, eng, Join(dir, "blog"));
    if posts.Failure? {
      return Failure("loading blog posts: " + posts.error);
    }
    var projects := LoadProjects(fs, eng, Join(dir, "projects"));
    if projects.Failure? {
      return Failure("loading projects: " + projects.error);
    }
    var resume := LoadResume(fs, eng, Join(dir, "resume"));
    if resume.Failure? {
      return Failure("loading resume: " + resume.error);
    }
    var p := posts.value;
    var q := projects.value;
    return Success(ContentStore(p.posts, p.bySlug, p.byTag, q.projects, q.bySlug, resume.value));
  }

  /** Every listing os.ReadDir returns has distinct names. */
  ghost predicate ListingsDistinct(fs: FileSystem) {
    forall d :: fs.readDir(d).Listing? ==> DistinctNames(fs.readDir(d).entries)
  }

  /** The blog half of a loaded store: posts newest first, every post found under its own slug
      with no other keys, and every tag bucket the reference bucket over the sorted posts. */
  lemma LoadedPosts(cs: ContentStore, fs: FileSystem, eng: Engines, dir: string)
    requires ListingsDistinct(fs) && IsLoadOf(cs, fs, eng, dir)
    ensures SortedBy(cs.posts, PostNewer)
    ensures forall i :: 0 <= i < |cs.posts| ==>
      cs.posts[i].slug in cs.postsBySlug && cs.postsBySlug[cs.posts[i].slug] == cs.posts[i]
    ensures |cs.postsBySlug| == |cs.posts|
    ensures forall t :: Bucket(cs.postsByTag, t) == TagBucket(cs.posts, t)
    ensures forall t :: t in cs.postsByTag <==> exists i :: 0 <= i < |cs.posts| && t in cs.posts[i].tags
  {
    var blog := Join(dir, "blog");
    var posts := DirItems(fs, blog, PostDecoder(eng)).value;
    if fs.readDir(blog).Listing? {
      LoadedSlugs(fs, blog, PostDecoder(eng), PostSlug);
    } else {
      assert posts == [];
    }
    DistinctSlugsPermutation(posts, cs.posts, PostSlug);
    SlugIndexFinds(cs.posts, PostSlug);
    forall t ensures Bucket(cs.postsByTag, t) == TagBucket(cs.posts, t)
      && (t in cs.postsByTag <==> exists i :: 0 <= i < |cs.posts| && t in cs.posts[i].tags)
    {
      TagIndexMeaning(cs.posts, t);
    }
  }

  /** The projects half: newest first, every project found under its own slug with no other keys. */
  lemma LoadedProjects(cs: ContentStore, fs: FileSystem, eng: Engines, dir: string)
    requires ListingsDistinct(fs) && IsLoadOf(cs, fs, eng, dir)
    ensures SortedBy(cs.projects, ProjectNewer)
    ensures forall i :: 0 <= i < |cs.projects| ==>
      cs.projects[i].slug in cs.projectsBySlug && cs.projectsBySlug[cs.projects[i].slug] == cs.projects[i]
    ensures |cs.projectsBySlug| == |cs.projects|
  {
    var proj := Join(dir, "projects");
    var projects := DirItems(fs, proj, ProjectDecoder(eng)).value;
    if fs.readDir(proj).Listing? {
      LoadedSlugs(fs, proj, ProjectDecoder(eng), ProjectSlug);
    } else {
      assert projects == [];
    }
    DistinctSlugsPermutation(projects, cs.projects, ProjectSlug);
    SlugIndexFinds(cs.projects, ProjectSlug);
  }

  /** A content directory with no blog, no projects and no resume.yaml loads as an empty store
      with no résumé. */
  lemma EmptyContentDir(cs: ContentStore, fs: FileSystem, eng: Engines, dir: string)
    requires fs.readDir(Join(dir, "blog")).DirFailed? && fs.readDir(Join(dir, "blog")).notExist
    requires fs.readDir(Join(dir, "projects")).DirFailed? && fs.readDir(Join(dir, "projects")).notExist
    requires fs.readFile(Join(Join(dir, "resume"), "resume.yaml")).FileFailed?
    requires fs.readFile(Join(Join(dir, "resume"), "resume.yaml")).notExist
    ensures LoadError(fs, eng, dir) == None
    ensures IsLoadOf(cs, fs, eng, dir) ==>
      cs.posts == [] && cs.postsBySlug == map[] && cs.postsByTag == map[]
      && cs.projects == [] && cs.projectsBySlug == map[] && cs.resume == None
  {
    if IsLoadOf(cs, fs, eng, dir) {
      assert |multiset(cs.posts)| == 0 && |multiset(cs.projects)| == 0;
    }
  }

  /** Two posts with different dates come out newer first, whatever order they were read in. */
  lemma NewestFirst(ix: PostsIndex, older: BlogPost, newer: BlogPost)
    requires After(newer.date, older.date)
    requires IsPostsIndexOf(ix, [older, newer])
    ensures ix.posts == [newer, older]
  {
    var ps := ix.posts;
    assert |ps| == |multiset(ps)| == 2;
    assert ps[0] in multiset(ps) && ps[1] in multiset(ps);
    assert older != newer by { AfterOrder(newer.date, older.date, older.date); }
    assert !PostNewer(ps[1], ps[0]);
    assert ps == [ps[0], ps[1]];
    assert multiset(ps)[older] == 1 && multiset(ps)[newer] == 1;
    assert ps[0] == older || ps[0] == newer;
    assert PostNewer(newer, older);
  }
}
