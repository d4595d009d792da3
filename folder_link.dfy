/** Parsing the destination folder id out of a shared Google Drive link
    (`FileProcessorService.extractFolderIdFromLink`). */
module FolderLink {
  import opened Common
  import opened Text

  /** A regular expression `<c><tail>([a-zA-Z0-9_-]+)`: one character out of
      `first`, then the literal `tail`, then the captured run of id characters. */
  datatype Pattern = Pattern(first: string, tail: string)
  {
    /** The length of the text before the capture. */
    function Width(): nat
    {
      1 + |tail|
    }
  }

  /** `/\/folders\/([a-zA-Z0-9_-]+)/`, the standard folder link. */
  const Folders: Pattern := Pattern("/", "folders/")

  /** `/[?&]id=([a-zA-Z0-9_-]+)/`, the "open" link. */
  const Open: Pattern := Pattern("?&", "id=")

  /** `/\/d\/([a-zA-Z0-9_-]+)/`, the direct link. */
  const Direct: Pattern := Pattern("/", "d/")

  /** The patterns in the order they are tried. */
  const Patterns: seq<Pattern> := [Folders, Open, Direct]

  /** The pattern matches at position `i`: its prefix, then at least one id character. */
  predicate MatchesAt(s: string, i: nat, p: Pattern)
  {
    && i + p.Width() < |s|
    && s[i] in p.first
    && s[i + 1..i + p.Width()] == p.tail
    && IsIdChar(s[i + p.Width()])
  }

  /** The length of the run of id characters starting at `j`, as far as the
      greedy `+` takes it. */
  function RunLength(s: string, j: nat): (n: nat)
    requires j <= |s|
    ensures j + n <= |s|
    ensures forall k :: j <= k < j + n ==> IsIdChar(s[k])
    ensures j + n == |s| || !IsIdChar(s[j + n])
    decreases |s| - j
  {
    if j < |s| && IsIdChar(s[j]) then 1 + RunLength(s, j + 1) else 0
  }

  /** The capture group of a match at `i`. */
  function CaptureAt(s: string, i: nat, p: Pattern): (c: string)
    requires MatchesAt(s, i, p)
    ensures c != []
    ensures forall k :: 0 <= k < |c| ==> IsIdChar(c[k])
  {
    s[i + p.Width()..i + p.Width() + RunLength(s, i + p.Width())]
  }

  /** `s.match(pattern)?.[1]` restricted to matches starting at `i` or later:
      the scan tries every start position from left to right. */
  function CaptureFrom(s: string, p: Pattern, i: nat): (r: Option<string>)
    requires i <= |s|
    ensures r.Some? ==> r.value != [] && forall k :: 0 <= k < |r.value| ==> IsIdChar(r.value[k])
    decreases |s| - i
  {
    if i + p.Width() >= |s| then None
    else if MatchesAt(s, i, p) then Some(CaptureAt(s, i, p))
    else CaptureFrom(s, p, i + 1)
  }

  function Capture(s: string, p: Pattern): (r: Option<string>)
  {
    CaptureFrom(s, p, 0)
  }

  /** The capture is taken at the leftmost match. */
  lemma {:induction false} CaptureIsLeftmost(s: string, p: Pattern, i: nat, j: nat)
    requires i <= j && MatchesAt(s, j, p)
    requires forall k: nat :: i <= k < j ==> !MatchesAt(s, k, p)
    ensures CaptureFrom(s, p, i) == Some(CaptureAt(s, j, p))
    decreases j - i
  {
    if i < j {
      assert !MatchesAt(s, i, p);
      CaptureIsLeftmost(s, p, i + 1, j);
    }
  }

  /** There is no capture exactly when the pattern matches nowhere. */
  lemma {:induction false} CaptureNoneIffNoMatch(s: string, p: Pattern, i: nat)
    requires i <= |s|
    ensures CaptureFrom(s, p, i) == None <==> forall k: nat :: i <= k ==> !MatchesAt(s, k, p)
    decreases |s| - i
  {
    if i + p.Width() < |s| && !MatchesAt(s, i, p) {
      CaptureNoneIffNoMatch(s, p, i + 1);
    }
  }

  /** `driveLink.split('/').pop()?.split('?')[0]`: the last path segment, cut at the first `?`. */
  function CleanId(link: string): string
  {
    Split(Last(Split(link, '/')), '?')[0]
  }

  const InvalidFolderLink: Exception := BadRequest("Invalid Google Drive folder link format")

  /** The folder id of a shared link, or the error `extractFolderIdFromLink`
      throws: the first pattern that matches gives the id; when none does, the
      bare last segment is accepted if its JavaScript `length` (in UTF-16 code
      units) exceeds ten. */
  function FolderIdFromLink(link: string): (r: Result<string, Exception>)
    ensures r.Success? ==> r.value != []
    ensures r.Failure? ==> r.error == InvalidFolderLink
    ensures (|| Capture(link, Folders).Some?
             || Capture(link, Open).Some?
             || Capture(link, Direct).Some?) ==>
      r.Success? && forall k :: 0 <= k < |r.value| ==> IsIdChar(r.value[k])
    ensures Capture(link, Folders).Some? ==> r == Success(Capture(link, Folders).value)
    ensures Capture(link, Folders).None? && Capture(link, Open).Some? ==> r == Success(Capture(link, Open).value)
    ensures Capture(link, Folders).None? && Capture(link, Open).None? && Capture(link, Direct).Some? ==>
      r == Success(Capture(link, Direct).value)
    ensures Capture(link, Folders).None? && Capture(link, Open).None? && Capture(link, Direct).None? ==>
      r == if Utf16Length(CleanId(link)) > 10 then Success(CleanId(link)) else Failure(InvalidFolderLink)
  {
    match Capture(link, Folders)
    case Some(id) => Success(id)
    case None =>
      match Capture(link, Open)
      case Some(id) => Success(id)
      case None =>
        match Capture(link, Direct)
        case Some(id) => Success(id)
        case None =>
          var clean := CleanId(link);
          if Utf16Length(clean) > 10 then Success(clean) else Failure(InvalidFolderLink)
  }

  /** The fallback id is the text after the last `/` up to the first `?` after it:
      it holds neither character, and it is the start of the last path segment. */
  lemma CleanIdShape(link: string)
    ensures var seg := Last(Split(link, '/'));
      && |seg| <= |link| && seg == link[|link| - |seg|..]
      && (|seg| == |link| || link[|link| - |seg| - 1] == '/')
      && StartsWith(seg, CleanId(link))
      && (|CleanId(link)| == |seg| || seg[|CleanId(link)|] == '?')
      && '/' !in CleanId(link) && '?' !in CleanId(link)
  {
    var seg := Last(Split(link, '/'));
    SplitLastPiece(link, '/');
    SplitFirstPiece(seg, '?');
    var c := CleanId(link);
    assert seg[..|c|] == c;
    assert forall k :: 0 <= k < |c| ==> c[k] == seg[k];
  }

  /** The leftmost match of the folders pattern decides, whatever the other
      patterns match. */
  lemma FoldersMatchWins(link: string, j: nat)
    requires MatchesAt(link, j, Folders)
    requires forall k: nat :: k < j ==> !MatchesAt(link, k, Folders)
    ensures FolderIdFromLink(link) == Success(CaptureAt(link, j, Folders))
  {
    CaptureIsLeftmost(link, Folders, 0, j);
  }

  /** Without a folders match, the leftmost match of the "open" pattern decides. */
  lemma OpenMatchWins(link: string, j: nat)
    requires forall k: nat :: !MatchesAt(link, k, Folders)
    requires MatchesAt(link, j, Open)
    requires forall k: nat :: k < j ==> !MatchesAt(link, k, Open)
    ensures FolderIdFromLink(link) == Success(CaptureAt(link, j, Open))
  {
    CaptureNoneIffNoMatch(link, Folders, 0);
    CaptureIsLeftmost(link, Open, 0, j);
  }

  /** The direct pattern `/d/` is tried third: its leftmost match decides
      only when neither of the other two matches anywhere. */
  lemma DirectMatchWins(link: string, j: nat)
    requires forall k: nat :: !MatchesAt(link, k, Folders)
    requires forall k: nat :: !MatchesAt(link, k, Open)
    requires MatchesAt(link, j, Direct)
    requires forall k: nat :: k < j ==> !MatchesAt(link, k, Direct)
    ensures FolderIdFromLink(link) == Success(CaptureAt(link, j, Direct))
  {
    CaptureNoneIffNoMatch(link, Folders, 0);
    CaptureNoneIffNoMatch(link, Open, 0);
    CaptureIsLeftmost(link, Direct, 0, j);
  }

  /** When no pattern matches anywhere, the last segment cut at `?` is the id
      if it is longer than ten UTF-16 code units, whatever characters it holds. */
  lemma NoMatchFallsBack(link: string)
    requires forall k: nat :: !MatchesAt(link, k, Folders)
    requires forall k: nat :: !MatchesAt(link, k, Open)
    requires forall k: nat :: !MatchesAt(link, k, Direct)
    ensures FolderIdFromLink(link) == if Utf16Length(CleanId(link)) > 10 then Success(CleanId(link)) else Failure(InvalidFolderLink)
  {
    CaptureNoneIffNoMatch(link, Folders, 0);
    CaptureNoneIffNoMatch(link, Open, 0);
    CaptureNoneIffNoMatch(link, Direct, 0);
  }

  /** A link without `/`, `?` or `&` matches no pattern and is taken whole
      when longer than ten UTF-16 code units: the fallback checks no
      character, so spaces or punctuation pass, and a character outside the
      Basic Multilingual Plane counts twice. */
  lemma PlainTextIsTakenWhole(link: string)
    requires '/' !in link && '?' !in link && '&' !in link
    ensures FolderIdFromLink(link) == if Utf16Length(link) > 10 then Success(link) else Failure(InvalidFolderLink)
  {
    forall k: nat, p: Pattern | k < |link| && p in Patterns
      ensures !MatchesAt(link, k, p)
    {
      assert link[k] !in p.first;
    }
    NoMatchFallsBack(link);
    SplitWithoutSeparator(link, '/');
    SplitWithoutSeparator(link, '?');
  }

  /** A Drive id: a non-empty run of `[a-zA-Z0-9_-]`. */
  predicate IsId(id: string)
  {
    id != [] && forall k :: 0 <= k < |id| ==> IsIdChar(id[k])
  }

  /** The run of id characters at `j` is `id` when `id` sits there and is
      followed by the end or by some other character. */
  lemma {:induction false} RunLengthOf(s: string, j: nat, id: string)
    requires j + |id| <= |s| && s[j..j + |id|] == id
    requires forall k :: 0 <= k < |id| ==> IsIdChar(id[k])
    requires j + |id| == |s| || !IsIdChar(s[j + |id|])
    ensures RunLength(s, j) == |id|
    decreases |id|
  {
    if id != [] {
      assert s[j] == id[0];
      assert s[j + 1..j + |id|] == id[1..];
      RunLengthOf(s, j + 1, id[1..]);
    }
  }

  /** The text after the first match is captured up to the first character
      that cannot be part of an id. */
  lemma CaptureBefore(a: string, lead: char, p: Pattern, id: string, t: string)
    requires lead in p.first && IsId(id) && (t == [] || !IsIdChar(t[0]))
    requires forall k :: 0 <= k < |a| ==> !MatchesAt(a + [lead] + p.tail + id + t, k, p)
    ensures Capture(a + [lead] + p.tail + id + t, p) == Some(id)
  {
    var s := a + [lead] + p.tail + id + t;
    var j := |a| + p.Width();
    assert s[|a|] == lead;
    assert s[|a| + 1..j] == p.tail;
    assert s[j..j + |id|] == id;
    RunLengthOf(s, j, id);
    assert MatchesAt(s, |a|, p);
    CaptureIsLeftmost(s, p, 0, |a|);
  }

  /** A folder link `<host>/folders/<id>`, with or without a query after the
      id, gives the id (the host, as Drive's hosts do, holds no `f`). */
  lemma FoldersLinkGivesId(host: string, id: string, t: string)
    requires 'f' !in host && IsId(id) && (t == [] || !IsIdChar(t[0]))
    ensures FolderIdFromLink(host + "/folders/" + id + t) == Success(id)
  {
    var s := host + "/folders/" + id + t;
    assert s == host + ['/'] + Folders.tail + id + t;
    forall k | 0 <= k < |host|
      ensures !MatchesAt(s, k, Folders)
    {
      assert s[k + 1] != 'f' by {
        if k + 1 < |host| {
          assert s[k + 1] == host[k + 1];
        } else {
          assert s[k + 1] == '/';
        }
      }
    }
    CaptureBefore(host, '/', Folders, id, t);
  }

  /** An "open" link `<host>?id=<id>` gives the id, when neither the host nor
      what follows the id could start an earlier match. */
  lemma OpenLinkGivesId(host: string, id: string, t: string)
    requires 'f' !in host && '?' !in host && '&' !in host
    requires IsId(id) && '/' !in t && (t == [] || !IsIdChar(t[0]))
    ensures FolderIdFromLink(host + "?id=" + id + t) == Success(id)
  {
    var s := host + "?id=" + id + t;
    assert s == host + ['?'] + Open.tail + id + t;
    forall k | |host| <= k < |s|
      ensures s[k] != '/'
    {
      if k < |host| + 4 {
        assert s[k] == "?id="[k - |host|];
      } else if k < |host| + 4 + |id| {
        assert s[k] == id[k - |host| - 4];
      } else {
        assert s[k] == t[k - |host| - 4 - |id|];
      }
    }
    forall k | 0 <= k < |s| - 1
      ensures s[k] != '/' || s[k + 1] != 'f'
    {
      if k + 1 < |host| {
        assert s[k + 1] == host[k + 1];
      } else if k + 1 == |host| {
        assert s[k + 1] == '?';
      }
    }
    forall k: nat
      ensures !MatchesAt(s, k, Folders)
    {
      if k + Folders.Width() < |s| {
        assert s[k + 1] == s[k + 1..k + Folders.Width()][0];
      }
    }
    CaptureNoneIffNoMatch(s, Folders, 0);
    forall k | 0 <= k < |host|
      ensures !MatchesAt(s, k, Open)
    {
      assert s[k] == host[k];
    }
    CaptureBefore(host, '?', Open, id, t);
  }

  /** A bare id is taken as it is when it is longer than ten characters, and
      rejected otherwise: id characters are ASCII, so both length measures agree. */
  lemma BareIdGivesId(id: string)
    requires IsId(id)
    ensures Utf16Length(id) == |id|
    ensures FolderIdFromLink(id) == if |id| > 10 then Success(id) else Failure(InvalidFolderLink)
  {
    IdIsPlainText(id);
    PlainTextIsTakenWhole(id);
  }

  lemma IdIsPlainText(id: string)
    requires IsId(id)
    ensures Utf16Length(id) == |id|
    ensures '/' !in id && '?' !in id && '&' !in id
  {
    assert forall k :: 0 <= k < |id| ==> !IsAstral(id[k]);
  }

  /** Six characters outside the Basic Multilingual Plane make a `length` of
      twelve, so such a link is accepted as the folder id. */
  lemma AstralTextIsTakenWhole(link: string)
    requires |link| == 6 && forall k :: 0 <= k < |link| ==> link[k] == '\U{1F600}'
    ensures FolderIdFromLink(link) == Success(link)
  {
    assert forall k :: 0 <= k < |link| ==> IsAstral(link[k]);
    assert '/' !in link && '?' !in link && '&' !in link;
    PlainTextIsTakenWhole(link);
  }

  /** A long id gives the same result written as a folder link, as a folder
      link with a sharing query, as an "open" link, and bare. */
  lemma LinkShapesAgree(foldersHost: string, openHost: string, id: string)
    requires 'f' !in foldersHost
    requires 'f' !in openHost && '?' !in openHost && '&' !in openHost
    requires IsId(id) && |id| > 10
    ensures FolderIdFromLink(foldersHost + "/folders/" + id) == Success(id)
    ensures FolderIdFromLink(foldersHost + "/folders/" + id + "?usp=sharing") == Success(id)
    ensures FolderIdFromLink(openHost + "?id=" + id) == Success(id)
    ensures FolderIdFromLink(id) == Success(id)
  {
    FoldersLinkGivesId(foldersHost, id, "");
    assert foldersHost + "/folders/" + id + "" == foldersHost + "/folders/" + id;
    FoldersLinkGivesId(foldersHost, id, "?usp=sharing");
    OpenLinkGivesId(openHost, id, "");
    assert openHost + "?id=" + id + "" == openHost + "?id=" + id;
    BareIdGivesId(id);
  }

  /** Google's own link shapes, whose hosts meet the conditions above. */
  lemma GoogleLinkShapesAgree(foldersHost: string, openHost: string, id: string)
    requires foldersHost == "https://drive.google.com/drive" && openHost == "https://drive.google.com/open"
    requires IsId(id) && |id| > 10
    ensures FolderIdFromLink(foldersHost + "/folders/" + id) == Success(id)
    ensures FolderIdFromLink(foldersHost + "/folders/" + id + "?usp=sharing") == Success(id)
    ensures FolderIdFromLink(openHost + "?id=" + id) == Success(id)
  {
    GoogleHosts(foldersHost, openHost);
    LinkShapesAgree(foldersHost, openHost, id);
  }

  lemma GoogleHosts(foldersHost: string, openHost: string)
    requires foldersHost == "https://drive.google.com/drive" && openHost == "https://drive.google.com/open"
    ensures 'f' !in foldersHost && 'f' !in openHost && '?' !in openHost && '&' !in openHost
  {
    FoldersHostChars();
    OpenHostChars();
    OpenHostNoQuery();
  }

  lemma FoldersHostChars()
    ensures 'f' !in "https://drive.google.com/drive"
  {
  }

  lemma OpenHostChars()
    ensures 'f' !in "https://drive.google.com/open"
  {
  }

  lemma OpenHostNoQuery()
    ensures '?' !in "https://drive.google.com/open" && '&' !in "https://drive.google.com/open"
  {
  }

  /** `extractFolderIdFromLink`: the patterns are tried in order and the first
      non-empty capture is returned; otherwise the bare last segment is
      accepted when it is longer than ten UTF-16 code units. */
  method ExtractFolderIdFromLink(driveLink: string) returns (r: Result<string, Exception>)
    ensures r == FolderIdFromLink(driveLink)
  {
    var patterns := Patterns;
    var i := 0;
    while i < |patterns|
      invariant 0 <= i <= |patterns|
      invariant forall k :: 0 <= k < i ==> Capture(driveLink, patterns[k]).None?
    {
      var m := Capture(driveLink, patterns[i]);
      if m.Some? && m.value != "" {
        if i == 1 {
          assert Capture(driveLink, patterns[0]).None?;
        } else if i == 2 {
          assert Capture(driveLink, patterns[0]).None?;
          assert Capture(driveLink, patterns[1]).None?;
        }
        return Success(m.value);
      }
      i := i + 1;
    }
    assert Capture(driveLink, patterns[0]).None?;
    assert Capture(driveLink, patterns[1]).None?;
    assert Capture(driveLink, patterns[2]).None?;
    var cleanId := CleanId(driveLink);
    if cleanId != "" && Utf16Length(cleanId) > 10 {
      return Success(cleanId);
    }
    return Failure(InvalidFolderLink);
  }
}
