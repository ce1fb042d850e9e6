/** The blog pages (blog.go): the post list, optionally filtered by tag, with the sorted list of
    all tags; and a single post looked up by slug. */
module BlogHandler {
  import opened Wrappers
  import opened Text
  import opened Sorting
  import opened ContentTypes
  import opened Loader
  import opened Store
  import opened Handler

  datatype BlogListData = BlogListData(page: PageData, posts: seq<BlogPost>, allTags: seq<string>, activeTag: string)

  datatype BlogPostData = BlogPostData(page: PageData, post: BlogPost)

  /** sort.Strings orders by StringLess, which is a strict weak order. */
  lemma StringLessOrder()
    ensures StrictWeakOrder(StringLess)
  {
    forall x: string ensures !StringLess(x, x) {
      StringLessIrreflexive(x);
    }
    forall x: string, y: string, z: string | StringLess(x, y) && StringLess(y, z) ensures StringLess(x, z) {
      StringLessTransitive(x, y, z);
    }
    forall x: string, y: string, z: string | StringLess(x, z) ensures StringLess(x, y) || StringLess(y, z) {
      StringLessTotal(x, y);
      if StringLess(y, x) {
        StringLessTransitive(y, x, z);
      }
    }
  }

  /** Strictly ascending: sorted and without repetitions. */
  ghost predicate Ascending(s: seq<string>) {
    forall i, j :: 0 <= i < j < |s| ==> StringLess(s[i], s[j])
  }

  lemma SortedDistinctAscending(s: seq<string>)
    requires SortedBy(s, StringLess) && Distinct(s)
    ensures Ascending(s)
  {
    forall i, j | 0 <= i < j < |s| ensures StringLess(s[i], s[j]) {
      StringLessTotal(s[i], s[j]);
    }
  }

  /** The page fields of the list page. */
  function ListPage(d: Deps): PageData {
    BasePage(d, "blog").(pageTitle := "Blog", description := "Blog posts by William Findlay")
  }

  /** The keys of PostsByTag gathered one at a time into a set. */
  method KeySet(byTag: map<string, seq<BlogPost>>) returns (tags: set<string>)
    ensures tags == byTag.Keys
  {
    tags := {};
    var rest := byTag.Keys;
    while rest != {}
      invariant rest <= byTag.Keys && tags == byTag.Keys - rest
      decreases rest
    {
      var t :| t in rest;
      tags := tags + {t};
      rest := rest - {t};
    }
  }

  /** The members of a set appended to a list in iteration order (which Go leaves unspecified,
      so any order). */
  method ListOf(tags: set<string>) returns (s: seq<string>)
    ensures forall t :: t in s <==> t in tags
    ensures Distinct(s)
  {
    s := [];
    var left := tags;
    while left != {}
      invariant left <= tags
      invariant forall t :: t in s <==> t in tags - left
      invariant Distinct(s)
      decreases left
    {
      var t :| t in left;
      s := s + [t];
      left := left - {t};
    }
  }

  /** sort.Strings on a list without repetitions: the same members, strictly ascending. */
  method SortStrings(s: seq<string>) returns (r: seq<string>)
    requires Distinct(s)
    ensures forall t :: t in r <==> t in s
    ensures Ascending(r)
  {
    var a := new string[|s|](i requires 0 <= i < |s| => s[i]);
    assert a[..] == s;
    StringLessOrder();
    InsertionSort(a, StringLess);
    r := a[..];
    DistinctPermutation(s, r);
    SortedDistinctAscending(r);
    forall t ensures t in r <==> t in s {
      assert t in r <==> t in multiset(r);
      assert t in s <==> t in multiset(s);
    }
  }

  /** The tag list of BlogList: every key of PostsByTag once, in ascending order. */
  method AllTags(byTag: map<string, seq<BlogPost>>) returns (allTags: seq<string>)
    ensures forall t :: t in allTags <==> t in byTag
    ensures Ascending(allTags)
  {
    var tags := KeySet(byTag);
    var listed := ListOf(tags);
    allTags := SortStrings(listed);
  }

  /** BlogList: nothing but the page fields before content is loaded; otherwise the posts of the
      requested tag in bucket order (none for an unknown tag), or all posts when no tag is asked
      for, and every tag in ascending order. */
  method BlogList(d: Deps, store: AtomicStore, tag: string) returns (r: Response<BlogListData>)
    ensures r.Page? && r.template == "templates/blog/list.html" && r.data.page == ListPage(d)
    ensures store.ptr.None? ==> r.data.posts == [] && r.data.allTags == [] && r.data.activeTag == ""
    ensures store.ptr.Some? && tag != "" ==>
      r.data.activeTag == tag && r.data.posts == Bucket(store.ptr.value.postsByTag, tag)
    ensures store.ptr.Some? && tag == "" ==> r.data.activeTag == "" && r.data.posts == store.ptr.value.posts
    ensures store.ptr.Some? ==>
      (forall t :: t in r.data.allTags <==> t in store.ptr.value.postsByTag) && Ascending(r.data.allTags)
  {
    var cs := store.Load();
    var data := BlogListData(ListPage(d), [], [], "");
    if cs.Some? {
      var st := cs.value;
      if tag != "" {
        data := data.(activeTag := tag);
        if tag in st.postsByTag {
          var bucket := st.postsByTag[tag];
          var i := 0;
          while i < |bucket|
            invariant 0 <= i <= |bucket| && data.posts == bucket[..i]
            invariant data.page == ListPage(d) && data.activeTag == tag && data.allTags == []
          {
            assert bucket[..i + 1] == bucket[..i] + [bucket[i]];
            data := data.(posts := data.posts + [bucket[i]]);
            i := i + 1;
          }
          assert bucket[..i] == bucket;
        }
      } else {
        data := data.(posts := st.posts);
      }
      var allTags := AllTags(st.postsByTag);
      data := data.(allTags := allTags);
    }
    r := Page("templates/blog/list.html", data);
  }

  /** BlogPost: not found before content is loaded or for an unknown slug; otherwise the post
      with its title, description and canonical URL under /blog/. */
  method BlogPostPage(d: Deps, store: AtomicStore, slug: string) returns (r: Response<BlogPostData>)
    ensures r.NotFound? <==> store.ptr.None? || slug !in store.ptr.value.postsBySlug
    ensures r.Page? ==>
      var post := store.ptr.value.postsBySlug[slug];
      r.template == "templates/blog/post.html" && r.data.post == post
      && r.data.page.pageTitle == post.title && r.data.page.description == post.description
      && r.data.page.canonicalURL == d.siteURL + "/blog/" + slug && r.data.page.activeNav == "blog"
  {
    var cs := store.Load();
    if cs.None? {
      return NotFound;
    }
    if slug !in cs.value.postsBySlug {
      return NotFound;
    }
    var post := cs.value.postsBySlug[slug];
    var page := BasePage(d, "blog").(pageTitle := post.title, description := post.description,
      canonicalURL := d.siteURL + "/blog/" + slug);
    return Page("templates/blog/post.html", BlogPostData(page, post));
  }

  /** For a loaded store, every post has a page at its own slug showing that post. */
  lemma EveryPostHasAPage(cs: ContentStore, fs: FileSystem, eng: Engines, dir: string, i: nat)
    requires ListingsDistinct(fs) && IsLoadOf(cs, fs, eng, dir) && i < |cs.posts|
    ensures cs.posts[i].slug in cs.postsBySlug && cs.postsBySlug[cs.posts[i].slug] == cs.posts[i]
  {
    LoadedPosts(cs, fs, eng, dir);
  }

  /** The posts listed for a tag keep the newest-first order of the full list. */
  lemma {:induction false} TagBucketSorted(ps: seq<BlogPost>, t: string)
    requires SortedBy(ps, PostNewer)
    ensures SortedBy(TagBucket(ps, t), PostNewer)
  {
    if ps != [] {
      var init, last := ps[..|ps| - 1], ps[|ps| - 1];
      assert SortedBy(init, PostNewer);
      TagBucketSorted(init, t);
      var b, r := TagBucket(init, t), Repeat(last, Count(last.tags, t));
      assert forall p :: p in b ==> !PostNewer(last, p) by {
        forall p | p in b ensures !PostNewer(last, p) {
          TagBucketMembers(init, t, p);
          var k :| 0 <= k < |init| && init[k] == p;
          assert ps[k] == p;
        }
      }
      var s := b + r;
      forall i, j | 0 <= i < j < |s| ensures !PostNewer(s[j], s[i]) {
        if j >= |b| {
          assert s[j] == last;
          if i < |b| {
            assert s[i] in b;
          }
        }
      }
    }
  }

  /** For a loaded store the tag page shows, newest first, each post carrying the tag. */
  lemma TagListing(cs: ContentStore, fs: FileSystem, eng: Engines, dir: string, t: string)
    requires ListingsDistinct(fs) && IsLoadOf(cs, fs, eng, dir)
    ensures forall p :: p in Bucket(cs.postsByTag, t) <==> p in cs.posts && t in p.tags
    ensures SortedBy(Bucket(cs.postsByTag, t), PostNewer)
  {
    LoadedPosts(cs, fs, eng, dir);
    forall p ensures p in Bucket(cs.postsByTag, t) <==> p in cs.posts && t in p.tags {
      TagBucketMembers(cs.posts, t, p);
    }
    TagBucketSorted(cs.posts, t);
  }
}
