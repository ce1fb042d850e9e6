/** The home page (home.go): the five newest posts and the featured projects. */
module HomeHandler {
  import opened Wrappers
  import opened Sorting
  import opened ContentTypes
  import opened Loader
  import opened Store
  import opened Handler

  datatype HomeData = HomeData(page: PageData, recentPosts: seq<BlogPost>, featuredProjects: seq<Project>)

  /** How many posts the home page lists at most. */
  const RecentLimit := 5

  const HomeDescription := "Personal website of William Findlay \U{2014} software engineer, security researcher, and systems thinker."

  function HomePage(d: Deps): PageData {
    BasePage(d, "").(canonicalURL := d.siteURL, description := HomeDescription)
  }

  /** The featured projects, in their listed order. */
  function FilterFeatured(ps: seq<Project>): seq<Project> {
    if ps == [] then []
    else FilterFeatured(ps[..|ps| - 1]) + (if ps[|ps| - 1].featured then [ps[|ps| - 1]] else [])
  }

  lemma {:induction false} FeaturedMembers(ps: seq<Project>)
    ensures forall p :: p in FilterFeatured(ps) <==> p in ps && p.featured
  {
    if ps != [] {
      assert ps == ps[..|ps| - 1] + [ps[|ps| - 1]];
      FeaturedMembers(ps[..|ps| - 1]);
    }
  }

  /** Filtering a list piecewise gives the same as filtering it whole. */
  lemma {:induction false} FeaturedConcat(xs: seq<Project>, ys: seq<Project>)
    ensures FilterFeatured(xs + ys) == FilterFeatured(xs) + FilterFeatured(ys)
    decreases |ys|
  {
    if ys != [] {
      var init := ys[..|ys| - 1];
      assert (xs + ys)[..|xs + ys| - 1] == xs + init;
      assert (xs + ys)[|xs + ys| - 1] == ys[|ys| - 1];
      FeaturedConcat(xs, init);
    } else {
      assert xs + ys == xs;
    }
  }

  /** The featured-projects loop: projects with Featured set are appended in order. */
  method Featured(ps: seq<Project>) returns (r: seq<Project>)
    ensures r == FilterFeatured(ps)
  {
    r := [];
    var i := 0;
    while i < |ps|
      invariant 0 <= i <= |ps| && r == FilterFeatured(ps[..i])
    {
      assert ps[..i + 1][..i] == ps[..i];
      if ps[i].featured {
        r := r + [ps[i]];
      }
      i := i + 1;
    }
    assert ps[..i] == ps;
  }

  /** Home: not found except at "/"; otherwise the home page, with the recent posts and
      featured projects once content is loaded. */
  method Home(d: Deps, store: AtomicStore, path: string) returns (r: Response<HomeData>)
    ensures path != "/" <==> r.NotFound?
    ensures r.Page? ==> r.template == "templates/home.html" && r.data.page == HomePage(d)
    ensures r.Page? && store.ptr.None? ==> r.data.recentPosts == [] && r.data.featuredProjects == []
    ensures r.Page? && store.ptr.Some? ==>
      var cs := store.ptr.value;
      |r.data.recentPosts| == (if |cs.posts| < RecentLimit then |cs.posts| else RecentLimit)
      && r.data.recentPosts == cs.posts[..|r.data.recentPosts|]
      && r.data.featuredProjects == FilterFeatured(cs.projects)
  {
    if path != "/" {
      return NotFound;
    }
    var cs := store.Load();
    var data := HomeData(HomePage(d), [], []);
    if cs.Some? {
      var limit := RecentLimit;
      if |cs.value.posts| < limit {
        limit := |cs.value.posts|;
      }
      var featured := Featured(cs.value.projects);
      data := data.(recentPosts := cs.value.posts[..limit], featuredProjects := featured);
    }
    return Page("templates/home.html", data);
  }

  /** For a loaded store the recent posts are the newest: no post left off is newer than one
      shown, and every featured project is listed. */
  lemma RecentAreNewest(cs: ContentStore, fs: FileSystem, eng: Engines, dir: string, n: nat)
    requires ListingsDistinct(fs) && IsLoadOf(cs, fs, eng, dir) && n <= |cs.posts|
    ensures forall i, j :: 0 <= i < n <= j < |cs.posts| ==> !PostNewer(cs.posts[j], cs.posts[..n][i])
    ensures forall p :: p in FilterFeatured(cs.projects) <==> p in cs.projects && p.featured
  {
    LoadedPosts(cs, fs, eng, dir);
    FeaturedMembers(cs.projects);
  }
}
