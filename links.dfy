/** The shareable link `${origin}/#draw/${sessionId}` (script.js:165) and the
    routing of `checkURL` (script.js:114-124), which recovers the session id
    from the URL fragment. */
module Links {
  import opened Js

  const DrawHashPrefix: string := "#draw/"

  /** The fragment part of a session's link. */
  function LinkHash(sessionId: string): string {
    DrawHashPrefix + sessionId
  }

  /** `${window.location.origin}/#draw/${sessionId}`: the origin, then
      `/#draw/`, then the id. */
  function ShareableLink(origin: string, sessionId: string): (link: string)
    ensures |link| == |origin| + 7 + |sessionId|
    ensures link[..|origin|] == origin
    ensures link[|origin|..|origin| + 7] == "/" + DrawHashPrefix
    ensures link[|origin| + 7..] == sessionId
  {
    origin + "/" + LinkHash(sessionId)
  }

  /** `location.hash` of a URL: everything from the first `#`, or "" when
      there is no `#` or nothing follows it. */
  function FragmentOf(url: string): (r: string)
    ensures r == [] || (|r| >= 2 && r[0] == '#')
    ensures |r| <= |url| && r == url[|url| - |r|..]
    ensures r != [] ==> '#' !in url[..|url| - |r|]
    ensures '#' !in url ==> r == []
    ensures r == [] ==> '#' !in url || (url[|url| - 1] == '#' && '#' !in url[..|url| - 1])
  {
    IndexOfSpec(url, "#");
    match IndexOf(url, "#")
    case None =>
      assert '#' !in url by {
        forall j | 0 <= j < |url|
          ensures url[j] != '#'
        {
          assert url[j..][..1] == [url[j]];
        }
      }
      ""
    case Some(i) =>
      assert url[i] == '#' by {
        assert url[i..i + 1] == "#";
      }
      assert '#' !in url[..i] by {
        forall j | 0 <= j < i
          ensures url[..i][j] != '#'
        {
          assert url[j..][..1] == [url[j]];
        }
      }
      if i + 1 == |url| then "" else url[i..]
  }

  datatype Route = Home | DrawRoute(sessionId: string)

  /** `checkURL`: the draw page for path "/" with a fragment starting `#draw/`,
      the session id being the fragment with that prefix replaced by "";
      the home page otherwise. */
  function ParseRoute(path: string, hash: string): (r: Route)
    ensures r.DrawRoute? <==> path == "/" && StartsWith(hash, DrawHashPrefix)
    ensures r.DrawRoute? ==> LinkHash(r.sessionId) == hash
  {
    if path == "/" && StartsWith(hash, DrawHashPrefix) then
      assert hash == hash[..|DrawHashPrefix|] + hash[|DrawHashPrefix|..];
      DrawRoute(ReplaceFirstWithEmpty(hash, DrawHashPrefix))
    else
      Home
  }

  /** Opening a session's link leads back to that session: when the origin
      contains no `#`, whatever the id holds, the link's fragment is `#draw/<id>` and
      `checkURL` on path "/" routes to the draw page of exactly that id. */
  lemma LinkRoundTrip(origin: string, sessionId: string)
    requires '#' !in origin
    ensures FragmentOf(ShareableLink(origin, sessionId)) == LinkHash(sessionId)
    ensures ParseRoute("/", FragmentOf(ShareableLink(origin, sessionId))) == DrawRoute(sessionId)
  {
    var head := origin + "/";
    assert ShareableLink(origin, sessionId) == head + LinkHash(sessionId);
    assert StartsWith(LinkHash(sessionId), "#");
    IndexOfPastPrefix(head, LinkHash(sessionId), '#');
    assert (head + LinkHash(sessionId))[|head|..] == LinkHash(sessionId);
    assert ParseRoute("/", LinkHash(sessionId)).sessionId == sessionId;
  }
}
