/**
 * The string helpers that AbstractDocumentSource registers with the
 * template engine ("ifeq" and "basename"), and getUrlParent, which strips
 * the last segment from a URL's text. A Java null is Option.None.
 */
module TemplateHelpers {
  import opened Wrappers
  import opened JavaString

  /**
   * The first parameter of an "ifeq" block as the template engine hands it
   * over: null, a String, or some other object (which no String equals).
   */
  datatype Arg = NullArg | StrArg(s: JString) | OtherArg

  /** The block an "ifeq" helper renders: options.fn() or options.inverse(). */
  datatype Branch = Then | Else

  /**
   * ifeq: the inverse block when the value or the parameter is null,
   * otherwise the main block exactly when value.equals(param).
   */
  function IfEq(value: Option<JString>, param: Arg): (r: Branch)
    ensures r == Then <==> value.Some? && param.StrArg? && value.value == param.s
  {
    if value.None? || param.NullArg? then Else
    else if param.StrArg? && value.value == param.s then Then
    else Else
  }

  /**
   * basename: null stays null, a value without '/' is returned unchanged,
   * otherwise the text after the last '/'.
   */
  function Basename(value: Option<JString>): (r: Option<JString>)
    ensures r.None? <==> value.None?
    ensures value.Some? && Slash !in value.value ==> r == value
    ensures r.Some? ==> Slash !in r.value && |r.value| <= |value.value|
    ensures r.Some? ==> value.value[|value.value| - |r.value|..] == r.value
    ensures value.Some? && Slash in value.value ==>
              |r.value| < |value.value| && value.value[|value.value| - |r.value| - 1] == Slash
  {
    match value
    case None => None
    case Some(s) =>
      var i := LastIndexOf(s, Slash);
      if i == -1 then Some(s) else Some(s[i + 1..])
  }

  /**
   * getUrlParent: null stays null, a URL text without '/' is returned
   * unchanged, otherwise the text before the last '/'.
   */
  function UrlParent(url: Option<JString>): (r: Option<JString>)
    ensures r.None? <==> url.None?
    ensures url.Some? && Slash !in url.value ==> r == url
    ensures url.Some? && Slash in url.value ==>
              && |r.value| < |url.value|
              && url.value[..|r.value|] == r.value
              && url.value[|r.value|] == Slash
              && Slash !in url.value[|r.value| + 1..]
  {
    match url
    case None => None
    case Some(s) =>
      var i := LastIndexOf(s, Slash);
      if i == -1 then Some(s) else Some(s[..i])
  }

  /** The last '/' of prefix + "/" + tail is the one before tail, when tail has none. */
  lemma {:induction false} LastSlashOf(prefix: JString, tail: JString)
    requires Slash !in tail
    ensures LastIndexOf(prefix + [Slash] + tail, Slash) == |prefix|
  {
    var s := prefix + [Slash] + tail;
    assert s[|prefix|] == Slash;
    assert s[|prefix| + 1..] == tail;
  }

  /**
   * The two helpers split a path at the same place: parent + "/" + basename
   * rebuilds the input, and any split of the input at a '/' after which no
   * '/' follows is that one.
   */
  lemma SplitAtLastSlash(prefix: JString, tail: JString)
    requires Slash !in tail
    ensures Basename(Some(prefix + [Slash] + tail)) == Some(tail)
    ensures UrlParent(Some(prefix + [Slash] + tail)) == Some(prefix)
  {
    LastSlashOf(prefix, tail);
    var s := prefix + [Slash] + tail;
    assert s[|prefix| + 1..] == tail;
    assert s[..|prefix|] == prefix;
  }

  /** For a text with a '/', its parent, a '/', and its basename are the text itself. */
  lemma ParentSlashBasename(s: JString)
    requires Slash in s
    ensures UrlParent(Some(s)).value + [Slash] + Basename(Some(s)).value == s
  {
  }

  /** The basename of a basename is itself: the result never has a '/'. */
  lemma BasenameIdempotent(value: Option<JString>)
    ensures Basename(Basename(value)) == Basename(value)
  {
  }

  /** Repeatedly taking the parent ends: each step with a '/' shortens the text. */
  lemma UrlParentShrinks(s: JString)
    ensures |UrlParent(Some(s)).value| <= |s|
    ensures UrlParent(Some(s)) == Some(s) <==> Slash !in s
  {
  }
}
