/** The template helper `truncate` and template lookup (render.go). Parsing the templates and
    executing them belong to html/template; a template is an opaque value and its execution an
    oracle. */
module Render {
  import opened Wrappers
  import opened Text

  /** The truncate template function on a string read as runes. With n < 0 Go's slice
      expression panics with a runtime bounds error, which text/template recovers into an
      execution error "error calling truncate: " followed by the runtime's message; the
      template name and position text/template puts in front of it are not modelled. */
  function Truncate(s: string, n: int): (r: Result<string, string>)
    ensures n >= 0 <==> r.Success?
  {
    if |s| <= n then Success(s)
    else if n < 0 then Failure("error calling truncate: runtime error: slice bounds out of range [:" + IntToString(n) + "]")
    else Success(s[..n] + "...")
  }

  /** What truncate promises: short text is unchanged, long text keeps its first n runes and
      gains an ellipsis (n + 3 runes in all), and the result always starts with the first
      min(n, |s|) runes of s. */
  lemma TruncateMeaning(s: string, n: int)
    requires n >= 0
    ensures |s| <= n ==> Truncate(s, n) == Success(s)
    ensures |s| > n ==> Truncate(s, n).value == s[..n] + "..." && |Truncate(s, n).value| == n + 3
    ensures var m := if n < |s| then n else |s|;
      HasPrefix(Truncate(s, n).value, s[..m])
  {
  }

  /** Truncating again to the resulting length changes nothing. */
  lemma TruncateStable(s: string, n: int)
    requires n >= 0
    ensures Truncate(Truncate(s, n).value, |Truncate(s, n).value|) == Truncate(s, n)
  {
  }

  /** A parsed page: a clone of base with one page template added. */
  datatype Template = Template(page: string)

  /** The pages New parses, keyed by path. */
  const Pages: seq<string> := [
    "templates/home.html", "templates/blog/list.html", "templates/blog/post.html",
    "templates/projects/list.html", "templates/projects/project.html", "templates/resume.html",
    "templates/feed.xml", "templates/404.html"]

  datatype Renderer = Renderer(templates: map<string, Template>)

  /** Executing one named template of a parsed page with some data: the output or an error. */
  type Exec<!D> = (Template, string, D) -> Result<string, string>

  /** Render: the page's template executed from "base", or an error naming the missing page. */
  function Render<D>(r: Renderer, name: string, data: D, exec: Exec<D>): (res: Result<string, string>)
    ensures res.Success? ==> name in r.templates
    ensures name !in r.templates ==> res == Failure("template " + Quote(name) + " not found")
  {
    if name !in r.templates then Failure("template " + Quote(name) + " not found")
    else exec(r.templates[name], "base", data)
  }

  /** RenderFeed: the feed page executed from "feed". */
  function RenderFeed<D>(r: Renderer, data: D, exec: Exec<D>): (res: Result<string, string>)
    ensures res.Success? ==> "templates/feed.xml" in r.templates
    ensures "templates/feed.xml" !in r.templates ==> res == Failure("feed template not found")
  {
    if "templates/feed.xml" !in r.templates then Failure("feed template not found")
    else exec(r.templates["templates/feed.xml"], "feed", data)
  }

  /** A missing page is reported with its quoted name whatever the executor would do, so the
      error does not depend on the data. */
  lemma RenderMissing<D>(r: Renderer, name: string, a: D, b: D, exec: Exec<D>)
    requires name !in r.templates && forall i :: 0 <= i < |name| ==> name[i] != '"' && name[i] != '\\'
    ensures Render(r, name, a, exec) == Render(r, name, b, exec) == Failure("template \"" + name + "\" not found")
  {
    QuotePlain(name);
    assert "template " + ("\"" + name + "\"") + " not found" == "template \"" + name + "\" not found";
  }

  /** Without a registered feed page the feed fails the same way for any data. */
  lemma RenderFeedMissing<D>(r: Renderer, a: D, b: D, exec: Exec<D>)
    requires "templates/feed.xml" !in r.templates
    ensures RenderFeed(r, a, exec) == RenderFeed(r, b, exec) == Failure("feed template not found")
  {
  }

  /** Rendering a page reads only that page's entry of the template map: renderers that agree
      on it (both lacking it, or both holding the same template) render it alike. */
  lemma RenderReadsOneEntry<D>(r1: Renderer, r2: Renderer, name: string, data: D, exec: Exec<D>)
    requires name in r1.templates <==> name in r2.templates
    requires name in r1.templates ==> r1.templates[name] == r2.templates[name]
    ensures Render(r1, name, data, exec) == Render(r2, name, data, exec)
    ensures Render(r1, name, data, exec).Success? ==> name in r1.templates
  {
  }

  /** The feed is the feed page executed from its "feed" template, never from "base". */
  lemma RenderFeedIsFeedPage<D>(r: Renderer, data: D, exec: Exec<D>)
    requires "templates/feed.xml" in r.templates
    ensures RenderFeed(r, data, exec) == exec(r.templates["templates/feed.xml"], "feed", data)
    ensures Render(r, "templates/feed.xml", data, exec) == exec(r.templates["templates/feed.xml"], "base", data)
  {
  }
}
