/** The project pages (project.go): the list of all projects and one project by slug. */
module ProjectHandler {
  import opened Wrappers
  import opened Sorting
  import opened ContentTypes
  import opened Loader
  import opened Store
  import opened Handler

  datatype ProjectListData = ProjectListData(page: PageData, projects: seq<Project>)

  datatype ProjectDetailData = ProjectDetailData(page: PageData, project: Project)

  function ListPage(d: Deps): PageData {
    BasePage(d, "projects").(pageTitle := "Projects", description := "Projects by William Findlay",
      canonicalURL := d.siteURL + "/projects")
  }

  /** ProjectList: the list page, with every loaded project (none before content is loaded). */
  method ProjectList(d: Deps, store: AtomicStore) returns (r: Response<ProjectListData>)
    ensures r.Page? && r.template == "templates/projects/list.html" && r.data.page == ListPage(d)
    ensures r.data.projects == (if store.ptr.Some? then store.ptr.value.projects else [])
  {
    var cs := store.Load();
    var data := ProjectListData(ListPage(d), []);
    if cs.Some? {
      data := data.(projects := cs.value.projects);
    }
    return Page("templates/projects/list.html", data);
  }

  /** ProjectDetail: not found before content is loaded or for an unknown slug; otherwise the
      project with its title, description and canonical URL under /projects/. */
  method ProjectDetail(d: Deps, store: AtomicStore, slug: string) returns (r: Response<ProjectDetailData>)
    ensures r.NotFound? <==> store.ptr.None? || slug !in store.ptr.value.projectsBySlug
    ensures r.Page? ==>
      var proj := store.ptr.value.projectsBySlug[slug];
      r.template == "templates/projects/project.html" && r.data.project == proj
      && r.data.page.pageTitle == proj.title && r.data.page.description == proj.description
      && r.data.page.canonicalURL == d.siteURL + "/projects/" + slug && r.data.page.activeNav == "projects"
  {
    var cs := store.Load();
    if cs.None? {
      return NotFound;
    }
    if slug !in cs.value.projectsBySlug {
      return NotFound;
    }
    var proj := cs.value.projectsBySlug[slug];
    var page := BasePage(d, "projects").(pageTitle := proj.title, description := proj.description,
      canonicalURL := d.siteURL + "/projects/" + slug);
    return Page("templates/projects/project.html", ProjectDetailData(page, proj));
  }

  /** For a loaded store every listed project has a detail page showing that project, and the
      list is newest first. */
  lemma EveryProjectHasAPage(cs: ContentStore, fs: FileSystem, eng: Engines, dir: string, i: nat)
    requires ListingsDistinct(fs) && IsLoadOf(cs, fs, eng, dir) && i < |cs.projects|
    ensures cs.projects[i].slug in cs.projectsBySlug && cs.projectsBySlug[cs.projects[i].slug] == cs.projects[i]
    ensures SortedBy(cs.projects, ProjectNewer)
  {
    LoadedProjects(cs, fs, eng, dir);
  }
}
