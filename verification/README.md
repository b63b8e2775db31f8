# go_wiki in Dafny

A model of the core of a minimal Go wiki server: pages named by a title are
viewed, edited and saved over HTTP, and each page is kept on disk as the file
`<title>.txt`.

The model has four modules:

- `Wrappers` (`wrappers.dfy`): `Option` and `Result`, standing for a nil
  regex match and for Go's `(value, error)` returns.
- `Route` (`route.dfy`): the route pattern `^/(edit|save|view)/([a-zA-Z0-9]+)$`,
  written as a scanner instead of a regex engine. `ParsePath` returns the verb
  and the title, or `None` where Go's `FindStringSubmatch` returns nil. The
  scanner is checked against a declarative description of the accepted paths
  (`RoutePath`, `IsTitle`, `Routable`). Go's `$` without the multi-line flag
  matches only at the end of the text, so a trailing newline is rejected too.
- `Storage` (`storage.dfy`): the filesystem is a `Disk`, a map from file names
  to byte contents plus a `writable` flag that decides whether writes succeed.
  It also holds `ioutil.WriteFile`/`ReadFile` over that map, `Page.Save` and
  `LoadPage`.
- `Wiki` (`wiki.dfy`): the `Response` a handler writes (`Render(template, page)`,
  `Redirect(url)`, `NotFound`, `ServerError(msg)`), the three handlers as pure
  functions from disk, request and title to the new disk and a response,
  `makeHandler`, and `getTitle`.

## Model

| member | source | states |
|---|---|---|
| Route.VerbOf | wiki.go:23 | the group `(edit\|save\|view)` recognises exactly the three verb names and returns the verb whose name it read |
| Route.AlnumRunEnd | wiki.go:23 | the greedy scan of `[a-zA-Z0-9]` stops at the first non-alphanumeric character or the end of the text, and everything it passed is alphanumeric |
| Route.ParsePath | wiki.go:23 | an accepted path is `/` + the verb + `/` + the title, and the title is a non-empty run of ASCII letters and digits, so it has no `/` and no `.` |
| Route.ParsePathOfRoute | wiki.go:23 | every path `/` + verb + `/` + alphanumeric title is accepted, yielding that verb and that title |
| Route.ParsePathExactly | wiki.go:23 | the pattern yields verb `v` and title `t` if and only if the path is exactly `/v/t` and `t` is a valid title |
| Route.ParsePathRejects | wiki.go:23 | a path is rejected if and only if it does not have the route shape, with nothing before or after |
| Storage.FileNameInjective | wiki.go:26-34 | the file name `title + ".txt"` is the same for two titles only when the titles are equal |
| Storage.WriteFile | wiki.go:28 | a successful write makes the file hold exactly the data and keeps every other file; a failed write reports an error and changes nothing |
| Storage.ReadFile | wiki.go:35 | a read succeeds exactly when the file exists and then returns its contents |
| Storage.Page.Save | wiki.go:26-30 | saving writes the body to the title's file, fails exactly when the disk refuses writes, and leaves every other file as it was |
| Storage.LoadPage | wiki.go:33-40 | loading succeeds exactly when the title's file exists and returns a page with that title and the file's contents; otherwise it returns the read error |
| Storage.SaveLoadRoundTrip | wiki.go:26-39 | after a successful save, loading the same title gives back the saved page |
| Storage.SaveFrame | wiki.go:26-29 | a save leaves every other title loading exactly as before |
| Wiki.ViewHandler | wiki.go:73-81 | a missing page redirects to `/edit/` + title and renders nothing; a stored page renders `view` with the loaded page; the disk is untouched |
| Wiki.EditHandler | wiki.go:84-90 | always renders `edit` on a page with the requested title, with the stored body or an empty one when there is none; never an error |
| Wiki.SaveHandler | wiki.go:93-102 | a failed write gives a server error and no redirect; a successful one stores the body and redirects to `/view/` + title; other titles are unaffected |
| Wiki.MakeHandler | wiki.go:105-114 | a rejected path gets NotFound and the wrapped handler is not called; an accepted path calls it with the matched title |
| Wiki.GetTitle | wiki.go:58-65 | fails, writing NotFound with an empty title and the "Invalid Page Title" error, exactly when the path is not of the route shape; otherwise returns the path's valid title |
| Wiki.GetTitleAgreesWithMakeHandler | wiki.go:58-65 | `getTitle` fails exactly when `makeHandler` answers 404, and otherwise returns the title `makeHandler` passes on |
| Wiki.MakeHandlerDispatch | wiki.go:105-114 | a path of the route shape reaches the handler with its own title; any other path gets NotFound with the disk unchanged |
| Wiki.RedirectRoundTrip | wiki.go:73-102 | the redirect targets `/edit/` + t and `/view/` + t built by the handlers parse back to verb `edit` and `view` with title t |
| Wiki.ServedWritesStayLocal | wiki.go:93-114 | a request through the save route changes at most the file of the title in its path, and that file name has no `/` |
| Wiki.ReadOnlyRoutes | wiki.go:73-90 | the view and edit routes never change the disk |
| Wiki.SaveThenView | wiki.go:73-102 | saving through `/save/t` redirects to `/view/t`, and requesting that path then renders `view` on the saved title and body |
| Wiki.EditMissingPage | wiki.go:84-90 | requesting `/edit/t` for a title with no page renders an empty edit form for `t` |

## Left out

- The HTTP server, route registration on the default mux and `log.Fatal(ListenAndServe)` (wiki.go:116-127): network plumbing. Which handler a path reaches is taken as given; `MakeHandler` receives the handler as a parameter.
- The root `handler` (wiki.go:68-70): it only formats the path into a string.
- Template parsing and execution, HTML escaping and the 500 answer of `renderTemplate` when execution fails (wiki.go:19, wiki.go:42-55): a foreign library. Rendering is the value `Render(template, page)`.
- `r.FormValue("body")` form decoding and the string-to-bytes conversion (wiki.go:94-95): the request carries the body already as bytes.
- Storage.WriteFile: a failed write leaves the disk unchanged, while the real `ioutil.WriteFile` may already have truncated or partly written the file; the 0600 permissions are not modelled either.
- Storage.ReadFile: a read fails only when the file is missing; permission and other I/O errors are not modelled, and the error texts are placeholders for the operating system's messages.
- Whether writes succeed is a flag of the disk, not a per-call choice of the environment.
- Concurrent saves to the same title: the source does nothing to coordinate them.
- The general regex engine: the one pattern is written out as `ParsePath`.
- `getTitle` is not called by any handler in the source; it is modelled as a function on its own and related to `makeHandler` by a lemma.
