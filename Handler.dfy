/** What every page handler shares (handler.go): the dependencies and the base page data.
    HTTP requests and responses are reduced to the values the handlers read and write. */
module Handler {

  /** The handler dependencies a page reads; the store is passed to each handler. */
  datatype Deps = Deps(siteTitle: string, siteURL: string)

  /** The page fields the handlers set; the particle settings and JSON-LD are not modelled. */
  datatype PageData = PageData(
    siteTitle: string, siteURL: string, pageTitle: string, description: string,
    canonicalURL: string, ogType: string, ogImage: string, author: string, activeNav: string)

  /** basePage */
  function BasePage(d: Deps, activeNav: string): (p: PageData)
    ensures p.siteURL == d.siteURL && p.activeNav == activeNav && p.canonicalURL == ""
  {
    PageData(d.siteTitle, d.siteURL, "", "", "", "website", d.siteURL + "/static/og-image.png",
      "William Findlay", activeNav)
  }

  /** The outcome of a handler: a page rendered from a template with its data, or the 404 page. */
  datatype Response<D> = Page(template: string, data: D) | NotFound
}
