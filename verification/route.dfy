/** The URL path validator of the wiki: the single regular expression
    `^/(edit|save|view)/([a-zA-Z0-9]+)$` that every page route is matched
    against, written out as a scanner over the path's characters. */
module Route {
  import opened Wrappers

  /** The three literal alternatives of the first capture group. */
  datatype Verb = Edit | Save | View

  function VerbName(v: Verb): string
  {
    match v
    case Edit => "edit"
    case Save => "save"
    case View => "view"
  }

  /** Recognises the first capture group `(edit|save|view)`. */
  function VerbOf(w: string): (r: Option<Verb>)
    ensures r.Some? ==> VerbName(r.value) == w
    ensures forall v :: VerbName(v) == w ==> r == Some(v)
  {
    if w == "edit" then Some(Edit)
    else if w == "save" then Some(Save)
    else if w == "view" then Some(View)
    else None
  }

  /** The character class `[a-zA-Z0-9]`: ASCII letters and digits only. */
  predicate IsAlnum(c: char)
  {
    ('a' <= c <= 'z') || ('A' <= c <= 'Z') || ('0' <= c <= '9')
  }

  /** A string the second capture group `([a-zA-Z0-9]+)` can match whole. */
  predicate IsTitle(t: string)
  {
    |t| > 0 && forall i :: 0 <= i < |t| ==> IsAlnum(t[i])
  }

  /** The path a route with verb `v` and title `t` is served under. */
  function RoutePath(v: Verb, t: string): string
  {
    "/" + VerbName(v) + "/" + t
  }

  /** A path the pattern accepts, stated without reference to the scanner. */
  ghost predicate Routable(s: string)
  {
    exists v, t :: s == RoutePath(v, t) && IsTitle(t)
  }

  /** Greedy scan of `[a-zA-Z0-9]*` from index `i`: the index of the first
      character at or after `i` outside the class, or `|s|`. */
  function AlnumRunEnd(s: string, i: nat): (j: nat)
    requires i <= |s|
    ensures i <= j <= |s|
    ensures forall k :: i <= k < j ==> IsAlnum(s[k])
    ensures j < |s| ==> !IsAlnum(s[j])
    decreases |s| - i
  {
    if i == |s| || !IsAlnum(s[i]) then i else AlnumRunEnd(s, i + 1)
  }

  /** `validPath.FindStringSubmatch(path)`, reduced to what its callers use:
      `None` for a nil match, otherwise the verb of group 1 and the text of
      group 2. Both anchors apply to the whole text (no multi-line flag), so
      nothing may precede the leading `/` or follow the title. */
  function ParsePath(s: string): (r: Option<(Verb, string)>)
    ensures r.Some? ==> s == RoutePath(r.value.0, r.value.1)
    ensures r.Some? ==> IsTitle(r.value.1)
    ensures r.Some? ==> '/' !in r.value.1 && '.' !in r.value.1
  {
    if |s| < 6 || s[0] != '/' || s[5] != '/' then None
    else
      match VerbOf(s[1..5])
      case None => None
      case Some(v) =>
        var end := AlnumRunEnd(s, 6);
        // `+` needs at least one character; `$` needs the end of the text
        if end == 6 || end != |s| then None
        else
          assert s == "/" + s[1..5] + "/" + s[6..];
          assert !IsAlnum('/') && !IsAlnum('.');
          Some((v, s[6..]))
  }

  /** Every well-formed route path is accepted, with its own verb and title. */
  lemma {:induction false} ParsePathOfRoute(v: Verb, t: string)
    requires IsTitle(t)
    ensures ParsePath(RoutePath(v, t)) == Some((v, t))
  {
    var s := RoutePath(v, t);
    assert s[1..5] == VerbName(v);
    assert s[6..] == t;
    assert forall k :: 6 <= k < |s| ==> s[k] == t[k - 6];
    assert AlnumRunEnd(s, 6) == |s|;
  }

  /** The pattern accepts exactly `/` + verb + `/` + a non-empty run of ASCII
      letters and digits, and then yields exactly that verb and title. */
  lemma ParsePathExactly(s: string, v: Verb, t: string)
    ensures ParsePath(s) == Some((v, t)) <==> s == RoutePath(v, t) && IsTitle(t)
  {
    if s == RoutePath(v, t) && IsTitle(t) {
      ParsePathOfRoute(v, t);
    }
  }

  /** A path is rejected exactly when it is not of the route shape. */
  lemma ParsePathRejects(s: string)
    ensures ParsePath(s).None? <==> !Routable(s)
  {
    if Routable(s) {
      var v, t :| s == RoutePath(v, t) && IsTitle(t);
      ParsePathOfRoute(v, t);
    }
  }
}
