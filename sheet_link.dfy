/**
 * Turning a Google Sheet link into its CSV export link (ITN.py:48-49):
 * the sheet id is `url.split("/d/")[1].split("/")[0]`.
 */
module SheetLink {
  import opened Results
  import opened PyStrings

  const SHEET_MARKER := "/d/"
  const EXPORT_PREFIX := "https://docs.google.com/spreadsheets/d/"
  const EXPORT_SUFFIX := "/export?format=csv"

  /** `split("/d/")[1]` raises IndexError when the link has no "/d/". */
  datatype LinkError = NoSheetMarker

  function SheetId(url: string): Result<string, LinkError>
  {
    var parts := Split(url, SHEET_MARKER);
    if |parts| < 2 then Failure(NoSheetMarker)
    else Success(Split(parts[1], "/")[0])
  }

  function ExportUrl(url: string): Result<string, LinkError>
  {
    match SheetId(url)
    case Failure(e) => Failure(e)
    case Success(id) => Success(EXPORT_PREFIX + id + EXPORT_SUFFIX)
  }

  /** The sheet id is the text after the first "/d/" up to the next "/" (or the
      end of the link); a link without "/d/" is refused. */
  lemma SheetIdIsSegmentAfterMarker(url: string)
    ensures var k := Find(url, SHEET_MARKER);
      if k == |url| then
        SheetId(url) == Failure(NoSheetMarker) && ExportUrl(url) == Failure(NoSheetMarker)
      else
        var rest := url[k + |SHEET_MARKER|..];
        var id := rest[..Find(rest, "/")];
        && SheetId(url) == Success(id)
        && ExportUrl(url) == Success(EXPORT_PREFIX + id + EXPORT_SUFFIX)
        && '/' !in id
  {
    var k := Find(url, SHEET_MARKER);
    SplitHead(url, SHEET_MARKER);
    if k < |url| {
      var rest := url[k + |SHEET_MARKER|..];
      SegmentBeforeSlash(rest);
      assert Split(url, SHEET_MARKER)[1] == Split(rest, SHEET_MARKER)[0];
    }
  }

  /** Cutting at the next "/d/" and then at the next "/" is cutting at the next "/",
      because "/d/" itself begins with a slash. */
  lemma SegmentBeforeSlash(rest: string)
    ensures var id := rest[..Find(rest, "/")];
      Split(Split(rest, SHEET_MARKER)[0], "/")[0] == id && '/' !in id
  {
    SplitHead(rest, SHEET_MARKER);
    var k2 := Find(rest, SHEET_MARKER);
    var m := Find(rest, "/");
    assert m <= k2 by {
      if k2 < |rest| {
        assert OccursAt(rest, "/", k2) by { assert rest[k2..][0] == '/'; }
      }
    }
    var piece := rest[..k2];
    forall j | 0 <= j < m ensures !OccursAt(piece, "/", j) {
      assert !OccursAt(rest, "/", j);
      assert piece[j..][0] == rest[j..][0];
    }
    if m < |piece| {
      assert OccursAt(piece, "/", m) by { assert piece[m..][0] == rest[m..][0]; }
    }
    FindIsFirst(piece, "/", m);
    SplitHead(piece, "/");
    assert piece[..m] == rest[..m];
    forall j | 0 <= j < m ensures rest[j] != '/' {
      assert !OccursAt(rest, "/", j);
      assert "/" <= rest[j..] <==> rest[j] == '/';
    }
  }

  /** A position meeting Find's contract is the one Find returns. */
  lemma FindIsFirst(s: string, sep: string, m: nat)
    requires |sep| > 0 && m <= |s|
    requires forall j :: 0 <= j < m ==> !OccursAt(s, sep, j)
    requires m == |s| || OccursAt(s, sep, m)
    ensures Find(s, sep) == m
  {
  }
}
