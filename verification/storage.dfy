/** The page store: a `Page` is kept as one file named after its title, and
    the filesystem is abstracted as a map from file names to contents. */
module Storage {
  import opened Wrappers

  newtype byte = b: int | 0 <= b < 256

  type Bytes = seq<byte>

  /** An I/O error as reported by the filesystem. */
  datatype Error = Error(msg: string)

  const ErrNotExist := Error("no such file or directory")
  const ErrWriteFailed := Error("write failed")

  /** The filesystem seen by the server: the files in its working directory
      and whether writes currently succeed. */
  datatype Disk = Disk(files: map<string, Bytes>, writable: bool)

  /** The file a title is stored in. */
  function FileName(title: string): string
  {
    title + ".txt"
  }

  /** Distinct titles never share a file. */
  lemma {:induction false} FileNameInjective(a: string, b: string)
    ensures FileName(a) == FileName(b) <==> a == b
  {
    if FileName(a) == FileName(b) {
      assert |a| == |b|;
      assert a == FileName(a)[..|a|];
      assert b == FileName(b)[..|b|];
    }
  }

  /** `ioutil.WriteFile`: replaces the named file's contents, or reports an
      error and leaves the disk as it was. */
  function WriteFile(d: Disk, name: string, data: Bytes): (r: (Disk, Option<Error>))
    ensures r.1.Some? <==> !d.writable
    ensures r.0.writable == d.writable
    ensures r.1.Some? ==> r.0 == d
    ensures r.1.None? ==> name in r.0.files && r.0.files[name] == data
    ensures r.0.files.Keys == d.files.Keys + (if r.1.None? then {name} else {})
    ensures forall k :: k != name && k in d.files ==> r.0.files[k] == d.files[k]
  {
    if d.writable then (d.(files := d.files[name := data]), None)
    else (d, Some(ErrWriteFailed))
  }

  /** `ioutil.ReadFile`: the named file's contents, or an error when there
      is no such file. */
  function ReadFile(d: Disk, name: string): (r: Result<Bytes, Error>)
    ensures r.Success? <==> name in d.files
    ensures r.Success? ==> r.value == d.files[name]
  {
    if name in d.files then Success(d.files[name]) else Failure(ErrNotExist)
  }

  datatype Page = Page(title: string, body: Bytes) {

    /** `Page.save`: writes the body to the title's file and returns the
        write's error, if any. */
    function Save(d: Disk): (r: (Disk, Option<Error>))
      ensures r.1.Some? <==> !d.writable
      ensures r.1.Some? ==> r.0 == d
      ensures r.1.None? ==> FileName(title) in r.0.files && r.0.files[FileName(title)] == body
      ensures r.0.files.Keys == d.files.Keys + (if r.1.None? then {FileName(title)} else {})
      ensures forall k :: k != FileName(title) && k in d.files ==> k in r.0.files && r.0.files[k] == d.files[k]
    {
      WriteFile(d, FileName(title), body)
    }
  }

  /** `loadPage`: the page stored under `title`, or the read error. */
  function LoadPage(d: Disk, title: string): (r: Result<Page, Error>)
    ensures r.Success? <==> FileName(title) in d.files
    ensures r.Success? ==> r.value.title == title && r.value.body == d.files[FileName(title)]
    ensures r.Failure? ==> r.error == ErrNotExist
  {
    match ReadFile(d, FileName(title))
    case Failure(e) => Failure(e)
    case Success(body) => Success(Page(title, body))
  }

  /** Loading a page just saved gives back that page, title and body. */
  lemma SaveLoadRoundTrip(d: Disk, p: Page)
    requires d.writable
    ensures LoadPage(p.Save(d).0, p.title) == Success(p)
  {
  }

  /** A save changes the entry of its own title only: every other title
      loads exactly as before, whether the write succeeded or not. */
  lemma {:induction false} SaveFrame(d: Disk, p: Page, other: string)
    requires other != p.title
    ensures LoadPage(p.Save(d).0, other) == LoadPage(d, other)
  {
    FileNameInjective(other, p.title);
  }
}
