/**
 * The page registry of src/service/PageService.h. The class-level statics
 * `pages` and `server` become the fields of one `PageService` object. The
 * route that `addPage` installs is recorded in a ghost list of
 * (server, path, page) triples, in installation order.
 */
module PageRegistry {

  /** A page; its rendering and components are not part of this model. */
  class Page {
    constructor () {}
  }

  /** The asynchronous web server the routes are installed on. */
  class WebServer {
    constructor () {}
  }

  class PageService {
    var pages: map<string, Page?>
    var server: WebServer?
    /** The GET handlers installed so far: each serves its page at its path on its server. */
    ghost var routes: seq<(WebServer, string, Page?)>

    /** The static initialisers: an empty map and no server. */
    constructor ()
      ensures pages == map[] && server == null && routes == []
    {
      pages := map[];
      server := null;
      routes := [];
    }

    /** `begin`: stores the server; the pages and routes are untouched. */
    method Begin(srv: WebServer?)
      modifies this
      ensures server == srv
      ensures pages == old(pages) && routes == old(routes)
    {
      server := srv;
    }

    /**
     * `addPage`: `pages[path] = page` (a later page at the same path
     * replaces an earlier one; other paths keep their pages), then a GET
     * route for the path on the server, then the same page back. The server
     * is dereferenced, so it must have been set.
     */
    method AddPage(path: string, page: Page?) returns (r: Page?)
      requires server != null
      modifies this
      ensures r == page
      ensures path in pages && pages[path] == page
      ensures forall q :: q != path ==> (q in pages <==> q in old(pages))
      ensures forall q :: q != path && q in old(pages) ==> pages[q] == old(pages)[q]
      ensures pages == old(pages)[path := page]
      ensures server == old(server)
      ensures routes == old(routes) + [(old(server), path, page)]
    {
      pages := pages[path := page];
      routes := routes + [(server, path, page)];
      r := page;
    }
  }

  /**
   * Registering two pages at one path: the second replaces the first, and
   * both routes stay installed.
   */
  method RegisterTwice(service: PageService, path: string, first: Page, second: Page)
    requires service.server != null
    modifies service
    ensures service.pages == old(service.pages)[path := second]
    ensures service.server == old(service.server)
    ensures service.routes == old(service.routes) + [(old(service.server), path, first), (old(service.server), path, second)]
  {
    var _ := service.AddPage(path, first);
    var _ := service.AddPage(path, second);
  }
}
