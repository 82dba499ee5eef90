/**
 * Request dispatch: `handle_request` in src/main.rs.
 *
 * The random prefix length that the source draws with `gen_range(0..=len)`
 * is the explicit argument `insertLen`. The page and the filler are ASCII,
 * so the byte offsets that Rust's `find`, `insert_str` and slicing use are
 * the character offsets used here.
 */
module Handler {
  import opened Options

  /** The only request fields the dispatch consults: the method token (`verb`) and `uri().path()`. */
  datatype Request = Request(verb: string, path: string)

  /** A response: the status code and the body (headers are never set). */
  datatype Response = Response(status: nat, body: string)

  const StatusOk: nat := 200
  const StatusNotFound: nat := 404

  /** The closing body tag before which the filler fragment is spliced. */
  const BodyClose: string := "</body>"

  /** The lines of the default nginx welcome page served at `/`. */
  const PageLines: seq<string> := [
    "<!DOCTYPE html>",
    "<html>",
    "<head>",
    "<title>Welcome to nginx!</title>",
    "<style>",
    "    body {",
    "        width: 35em;",
    "        margin: 0 auto;",
    "        font-family: Tahoma, Verdana, Arial, sans-serif;",
    "    }",
    "</style>",
    "</head>",
    "<body>",
    "<h1>Welcome to nginx!</h1>",
    "<p>If you see this page, the nginx web server is successfully installed and",
    "working. Further configuration is required.</p>",
    "",
    "<p>For online documentation and support please refer to",
    "<a href=\"http://nginx.org/\">nginx.org</a>.<br/>",
    "Commercial support is available at",
    "<a href=\"http://nginx.com/\">nginx.com</a>.</p>",
    "",
    "<p><em>Thank you for using nginx.</em></p>",
    "</body>",
    "</html>"
  ]

  /** `ls` joined with line breaks, as the multi-line literal in the source reads. */
  function JoinLines(ls: seq<string>): string {
    if |ls| == 0 then []
    else if |ls| == 1 then ls[0]
    else JoinLines(ls[..|ls| - 1]) + "\n" + ls[|ls| - 1]
  }

  /** The default nginx welcome page. */
  const NginxDefaultPage: string := JoinLines(PageLines)

  /** `GET /` is the only route. */
  predicate IsServed(req: Request) {
    req.verb == "GET" && req.path == "/"
  }

  /** `Response::default()`: status 200 and an empty body. */
  function DefaultResponse(): (r: Response)
    ensures r.status == StatusOk && r.body == []
  {
    Response(StatusOk, [])
  }

  /** Whether `pat` occurs in `s` starting at offset `j`. */
  predicate OccursAt(s: string, pat: string, j: nat) {
    j + |pat| <= |s| && s[j..j + |pat|] == pat
  }

  /** The first occurrence of `pat` in `s` at or after offset `from`. */
  function FindFrom(s: string, pat: string, from: nat): (r: Option<nat>)
    ensures r.Some? ==> from <= r.value && OccursAt(s, pat, r.value)
    ensures r.Some? ==> forall j :: from <= j < r.value ==> !OccursAt(s, pat, j)
    ensures r.None? ==> forall j :: from <= j ==> !OccursAt(s, pat, j)
    decreases |s| - from
  {
    if from + |pat| > |s| then None
    else if OccursAt(s, pat, from) then Some(from)
    else FindFrom(s, pat, from + 1)
  }

  /** `str::find`: the offset of the first occurrence of `pat` in `s`, if any. */
  function Find(s: string, pat: string): (r: Option<nat>)
    ensures r.Some? ==> OccursAt(s, pat, r.value)
    ensures r.Some? ==> forall j :: 0 <= j < r.value ==> !OccursAt(s, pat, j)
    ensures r.None? ==> forall j :: !OccursAt(s, pat, j)
  {
    FindFrom(s, pat, 0)
  }

  /**
   * Where the fragment goes: the offset of the first closing body tag,
   * or the end of the page when there is none.
   */
  function SplicePos(page: string): (pos: nat)
    ensures pos <= |page|
    ensures forall j :: 0 <= j < pos ==> !OccursAt(page, BodyClose, j)
    ensures OccursAt(page, BodyClose, pos) || (pos == |page| && forall j :: !OccursAt(page, BodyClose, j))
  {
    Find(page, BodyClose).UnwrapOr(|page|)
  }

  /** `String::insert_str`: `t` inserted into `s` at offset `idx`. */
  function InsertStr(s: string, idx: nat, t: string): (r: string)
    requires idx <= |s|
    ensures |r| == |s| + |t|
    ensures r[..idx] == s[..idx] && r[idx..idx + |t|] == t && r[idx + |t|..] == s[idx..]
  {
    s[..idx] + t + s[idx..]
  }

  /** The inserted paragraph: `format!("<p>{}</p>", text)`. */
  function Fragment(text: string): (r: string)
    ensures |r| == |text| + 7
    ensures r[..3] == "<p>" && r[3..|r| - 4] == text && r[|r| - 4..] == "</p>"
  {
    "<p>" + text + "</p>"
  }

  /**
   * In `pre + Fragment(text) + post`, no closing body tag starts before the
   * end of the fragment when none lies wholly inside `pre` and `text` holds
   * no '<'.
   */
  lemma NoCloseBeforeFragmentEnd(pre: string, text: string, post: string, j: nat)
    requires '<' !in text
    requires j < |pre| + |text| + 7
    requires j + 7 <= |pre| ==> !OccursAt(pre, BodyClose, j)
    ensures !OccursAt(pre + Fragment(text) + post, BodyClose, j)
  {
    var f := "<p>" + text + "</p>";
    var r := pre + f + post;
    var pos := |pre|;
    if j + 7 <= |r| {
      var w := r[j..j + 7];
      if j + 7 <= pos {
        assert w == pre[j..j + 7];
      } else if j < pos {
        assert w[pos - j] == r[pos] == '<';
        assert BodyClose[pos - j] != '<';
      } else {
        var i := j - pos;
        if i == 0 {
          assert w[1] == r[j + 1] == 'p' != BodyClose[1];
        } else if i < 3 {
          assert w[0] == r[j] && r[j] in "p>";
        } else if i < |f| - 4 {
          assert w[0] == r[j] == text[i - 3];
          assert text[i - 3] in text;
        } else if i == |f| - 4 {
          assert w[2] == r[j + 2] == 'p' != BodyClose[2];
        } else {
          assert w[0] == r[j] && r[j] in "/p>";
        }
      }
    }
  }

  /**
   * Splicing keeps the tag search consistent: in the spliced page, the
   * first closing body tag (or, when there is none, the end) comes right
   * after the fragment, provided the inserted text holds no '<'.
   */
  lemma SpliceBeforeFirstClose(page: string, text: string)
    requires '<' !in text
    ensures SplicePos(InsertStr(page, SplicePos(page), Fragment(text))) == SplicePos(page) + |text| + 7
  {
    var pos := SplicePos(page);
    var f := Fragment(text);
    var r := InsertStr(page, pos, f);
    var q := SplicePos(r);
    forall j | 0 <= j < pos + |f|
      ensures !OccursAt(r, BodyClose, j)
    {
      if j + 7 <= pos {
        assert !OccursAt(page, BodyClose, j);
        assert page[..pos][j..j + 7] == page[j..j + 7];
      }
      NoCloseBeforeFragmentEnd(page[..pos], text, page[pos..], j);
    }
    if pos < |page| {
      assert r[pos + |f|..pos + |f| + 7] == page[pos..pos + 7];
      assert OccursAt(r, BodyClose, pos + |f|);
    }
  }

  /**
   * When the page has a closing body tag, splicing a prefix of `text` holding
   * no '<' leaves a closing body tag right after the fragment, and it is the
   * first one of the result.
   */
  lemma SpliceBeforeRealClose(page: string, text: string, n: nat)
    requires '<' !in text && n <= |text|
    requires OccursAt(page, BodyClose, SplicePos(page))
    ensures var r := InsertStr(page, SplicePos(page), Fragment(text[..n]));
      SplicePos(r) == SplicePos(page) + n + 7 && OccursAt(r, BodyClose, SplicePos(r))
  {
    var pos := SplicePos(page);
    var f := Fragment(text[..n]);
    var r := InsertStr(page, pos, f);
    assert '<' !in text[..n] by {
      forall i | 0 <= i < n ensures text[..n][i] != '<' {
        assert text[i] in text;
      }
    }
    SpliceBeforeFirstClose(page, text[..n]);
    assert r[pos + |f|..pos + |f| + 7] == page[pos..pos + 7];
  }

  /** The next-to-last line of the page is the closing body tag. */
  lemma PageHasBodyClose()
    ensures OccursAt(NginxDefaultPage, BodyClose, |JoinLines(PageLines[..23])| + 1)
  {
    var ls := PageLines;
    assert |ls| == 25 && ls[23] == BodyClose && ls[24] == "</html>";
    assert ls[..24][..23] == ls[..23];
    var head := JoinLines(ls[..23]);
    assert NginxDefaultPage == head + "\n" + BodyClose + "\n" + "</html>";
    var pos := |head| + 1;
    assert NginxDefaultPage[pos..pos + 7] == BodyClose;
  }

  /** So the fragment is spliced before a real closing tag, not appended at the end. */
  lemma PageSplicePos()
    ensures SplicePos(NginxDefaultPage) < |NginxDefaultPage|
    ensures OccursAt(NginxDefaultPage, BodyClose, SplicePos(NginxDefaultPage))
  {
    PageHasBodyClose();
  }

  /**
   * `handle_request`: `GET /` gets the default page with the first
   * `insertLen` characters of the filler spliced in as a paragraph before
   * the closing body tag; any other method or path gets a 404 with the
   * default empty body.
   */
  method HandleRequest(req: Request, randomText: string, insertLen: nat) returns (resp: Response)
    requires insertLen <= |randomText|
    ensures resp.status == StatusOk <==> IsServed(req)
    ensures !IsServed(req) ==> resp == Response(StatusNotFound, [])
    ensures IsServed(req) ==> |resp.body| == |NginxDefaultPage| + insertLen + 7
    ensures IsServed(req) ==>
      var pos := SplicePos(NginxDefaultPage);
      resp.body[..pos] == NginxDefaultPage[..pos] &&
      resp.body[pos..pos + insertLen + 7] == "<p>" + randomText[..insertLen] + "</p>" &&
      resp.body[pos + insertLen + 7..] == NginxDefaultPage[pos..]
    ensures IsServed(req) && '<' !in randomText ==>
      SplicePos(resp.body) == SplicePos(NginxDefaultPage) + insertLen + 7 &&
      OccursAt(resp.body, BodyClose, SplicePos(resp.body))
  {
    if IsServed(req) {
      var page := NginxDefaultPage;
      var randomInsert := Fragment(randomText[..insertLen]);
      var pos := Find(page, BodyClose).UnwrapOr(|page|);
      page := InsertStr(page, pos, randomInsert);
      resp := Response(StatusOk, page);

      if '<' !in randomText {
        PageSplicePos();
        SpliceBeforeRealClose(NginxDefaultPage, randomText, insertLen);
      }
    } else {
      var notFound := DefaultResponse();
      notFound := notFound.(status := StatusNotFound);
      resp := notFound;
    }
  }
}
