/** The wiki's request handling: the view, edit and save handlers, the
    `makeHandler` wrapper that validates the path before calling them, and
    `getTitle`. Each handler is a pure function from the disk and the
    request to the new disk and the response it writes. */
module Wiki {
  import opened Wrappers
  import opened Route
  import opened Storage

  const StatusOK := 200
  const StatusFound := 302
  const StatusNotFound := 404
  const StatusInternalServerError := 500

  /** What a handler writes to the client. `Render` stands for executing
      the named template on a page. */
  datatype Response =
    | Render(template: string, page: Page)
    | Redirect(url: string)
    | NotFound
    | ServerError(msg: string)
  {
    function Status(): int
    {
      match this
      case Render(_, _) => StatusOK
      case Redirect(_) => StatusFound
      case NotFound => StatusNotFound
      case ServerError(_) => StatusInternalServerError
    }
  }

  /** The parts of a request the handlers look at: the URL path and the
      `body` form field. */
  datatype Request = Request(path: string, body: Bytes)

  /** The shape of a wrapped handler: disk, request and validated title in,
      new disk and response out. */
  type Handler = (Disk, Request, string) -> (Disk, Response)

  /** `viewHandler`: render a stored page, or send the client to the edit
      form when there is none. */
  function ViewHandler(d: Disk, r: Request, title: string): (res: (Disk, Response))
    ensures res.0 == d
    ensures FileName(title) !in d.files ==> res.1 == Redirect("/edit/" + title)
    ensures FileName(title) in d.files ==> res.1 == Render("view", Page(title, d.files[FileName(title)]))
  {
    match LoadPage(d, title)
    case Failure(_) => (d, Redirect("/edit/" + title))
    case Success(p) => (d, Render("view", p))
  }

  /** `editHandler`: render the edit form on the stored page, or on an empty
      page with that title when there is none. */
  function EditHandler(d: Disk, r: Request, title: string): (res: (Disk, Response))
    ensures res.0 == d
    ensures res.1.Render? && res.1.template == "edit" && res.1.page.title == title
    ensures res.1.page.body == if FileName(title) in d.files then d.files[FileName(title)] else []
  {
    var p := match LoadPage(d, title)
      case Failure(_) => Page(title, [])
      case Success(p) => p;
    (d, Render("edit", p))
  }

  /** `saveHandler`: store the submitted body under the title, then send the
      client to the view page; a failed write is answered with a 500. */
  function SaveHandler(d: Disk, r: Request, title: string): (res: (Disk, Response))
    ensures !d.writable ==> res.0 == d && res.1 == ServerError(ErrWriteFailed.msg)
    ensures d.writable ==> res.1 == Redirect("/view/" + title)
    ensures d.writable ==> LoadPage(res.0, title) == Success(Page(title, r.body))
    ensures forall t :: t != title ==> LoadPage(res.0, t) == LoadPage(d, t)
  {
    var p := Page(title, r.body);
    assert d.writable ==> LoadPage(p.Save(d).0, title) == Success(p) by {
      if d.writable { SaveLoadRoundTrip(d, p); }
    }
    forall t | t != title
      ensures LoadPage(p.Save(d).0, t) == LoadPage(d, t)
    {
      SaveFrame(d, p, t);
    }
    var (d', err) := p.Save(d);
    match err
    case Some(e) => (d', ServerError(e.msg))
    case None => (d', Redirect("/view/" + title))
  }

  /** `makeHandler`: answer 404 unless the path matches the route pattern,
      otherwise call the wrapped handler with the matched title. */
  function MakeHandler(fn: Handler, d: Disk, r: Request): (res: (Disk, Response))
    ensures ParsePath(r.path).None? ==> res == (d, NotFound)
    ensures ParsePath(r.path).Some? ==> res == fn(d, r, ParsePath(r.path).value.1)
  {
    match ParsePath(r.path)
    case None => (d, NotFound)
    case Some((_, title)) => fn(d, r, title)
  }

  /** The outcome of `getTitle`: what it wrote to the client, the title, and
      the error. */
  datatype TitleResult = TitleResult(reply: Option<Response>, title: string, err: Option<Error>)

  const InvalidPageTitle := Error("Invalid Page Title")

  /** `getTitle`: the title of a valid path, or a 404 written to the client
      together with an empty title and an error. */
  function GetTitle(path: string): (r: TitleResult)
    ensures r.err.Some? <==> !Routable(path)
    ensures r.err.Some? ==> r.title == "" && r.reply == Some(NotFound) && r.err == Some(InvalidPageTitle)
    ensures r.err.None? ==> r.reply == None && IsTitle(r.title)
    ensures r.err.None? ==> exists v :: path == RoutePath(v, r.title)
  {
    ParsePathRejects(path);
    match ParsePath(path)
    case None => TitleResult(Some(NotFound), "", Some(InvalidPageTitle))
    case Some((_, title)) => TitleResult(None, title, None)
  }

  /** `getTitle` and `makeHandler` agree: `getTitle` fails exactly when the
      wrapper answers 404 without calling its handler, and otherwise returns
      the title the wrapper hands over. */
  lemma GetTitleAgreesWithMakeHandler(fn: Handler, d: Disk, r: Request)
    ensures GetTitle(r.path).err.Some? ==> MakeHandler(fn, d, r) == (d, NotFound)
    ensures GetTitle(r.path).err.None? ==> MakeHandler(fn, d, r) == fn(d, r, GetTitle(r.path).title)
  {
  }

  /** A path of the route shape reaches the wrapped handler with exactly its
      title; any other path is answered 404 and the disk is left alone. */
  lemma {:induction false} MakeHandlerDispatch(fn: Handler, d: Disk, r: Request)
    ensures !Routable(r.path) ==> MakeHandler(fn, d, r) == (d, NotFound)
    ensures forall v, t :: r.path == RoutePath(v, t) && IsTitle(t) ==> MakeHandler(fn, d, r) == fn(d, r, t)
  {
    ParsePathRejects(r.path);
    forall v, t | r.path == RoutePath(v, t) && IsTitle(t)
      ensures MakeHandler(fn, d, r) == fn(d, r, t)
    {
      ParsePathOfRoute(v, t);
    }
  }

  /** The redirects the handlers build lead back to a valid route for the
      same title: view sends to `edit`, save sends to `view`. */
  lemma {:induction false} RedirectRoundTrip(d: Disk, r: Request, t: string)
    requires IsTitle(t)
    ensures var res := ViewHandler(d, r, t).1;
      res.Redirect? ==> ParsePath(res.url) == Some((Edit, t))
    ensures var res := SaveHandler(d, r, t).1;
      res.Redirect? ==> ParsePath(res.url) == Some((View, t))
  {
    assert "/edit/" + t == RoutePath(Edit, t);
    assert "/view/" + t == RoutePath(View, t);
    ParsePathOfRoute(Edit, t);
    ParsePathOfRoute(View, t);
  }

  /** File `k` holds the same contents, or is equally absent, on both disks. */
  predicate SameEntry(d: Disk, d': Disk, k: string)
  {
    (k !in d.files && k !in d'.files) || (k in d.files && k in d'.files && d.files[k] == d'.files[k])
  }

  /** Through the wrapper, only `/save/` requests change the disk, and then
      only the file of the title in the path. */
  lemma {:induction false} ServedWritesStayLocal(d: Disk, r: Request, k: string)
    requires !SameEntry(d, MakeHandler(SaveHandler, d, r).0, k)
    ensures ParsePath(r.path).Some?
    ensures k == FileName(ParsePath(r.path).value.1)
    ensures '/' !in k
  {
    match ParsePath(r.path)
    case None =>
      assert false;
    case Some((_, t)) =>
      var p := Page(t, r.body);
      assert MakeHandler(SaveHandler, d, r).0 == p.Save(d).0;
      if k != FileName(t) {
        assert false;
      }
      assert forall i :: 0 <= i < |t| ==> k[i] == t[i];
  }

  /** The view and edit routes never change the disk. */
  lemma ReadOnlyRoutes(d: Disk, r: Request)
    ensures MakeHandler(ViewHandler, d, r).0 == d
    ensures MakeHandler(EditHandler, d, r).0 == d
  {
  }

  /** Saving a page through `/save/t` and then requesting `/view/t` renders
      the `view` template on exactly the saved title and body. */
  lemma {:induction false} SaveThenView(d: Disk, t: string, body: Bytes, later: Bytes)
    requires IsTitle(t) && d.writable
    ensures var (d', saved) := MakeHandler(SaveHandler, d, Request("/save/" + t, body));
      && saved == Redirect("/view/" + t)
      && MakeHandler(ViewHandler, d', Request("/view/" + t, later)) == (d', Render("view", Page(t, body)))
  {
    assert "/save/" + t == RoutePath(Save, t);
    assert "/view/" + t == RoutePath(View, t);
    ParsePathOfRoute(Save, t);
    ParsePathOfRoute(View, t);
  }

  /** Requesting `/edit/t` for a title with no page renders an empty edit
      form, never an error. */
  lemma {:induction false} EditMissingPage(d: Disk, t: string, body: Bytes)
    requires IsTitle(t) && FileName(t) !in d.files
    ensures MakeHandler(EditHandler, d, Request("/edit/" + t, body)) == (d, Render("edit", Page(t, [])))
  {
    assert "/edit/" + t == RoutePath(Edit, t);
    ParsePathOfRoute(Edit, t);
  }
}
