/**
 Member-name predicates (worker/analyzers/name_security.py and the name helpers of
 worker/analyzers/archive.py). Case folding and Unicode normalisation are parameters.
 */
module NameSecurity {
  import opened Wrappers

  const DANGEROUS_EXTENSIONS: set<string> := {
    "bat", "cmd", "com", "cpl", "dll", "exe", "hta", "jar", "js", "jse", "lnk", "msi", "pif",
    "ps1", "scr", "vbe", "vbs", "wsf", "wsh"}

  const BUSINESS_EXTENSIONS: set<string> := {
    "csv", "doc", "docm", "docx", "odp", "ods", "odt", "pdf", "ppt", "pptm", "pptx", "rtf",
    "txt", "xls", "xlsm", "xlsx"}

  const BIDI_CONTROLS: set<char> := {
    '\U{200E}', '\U{200F}', '\U{202A}', '\U{202B}', '\U{202C}', '\U{202D}', '\U{202E}',
    '\U{2066}', '\U{2067}', '\U{2068}', '\U{2069}'}

  function Portable(name: string): (r: string)
    ensures |r| == |name|
  {
    seq(|name|, i requires 0 <= i < |name| => if name[i] == '\\' then '/' else name[i])
  }

  /** `str.split` on one separator character. */
  function Split(s: string, separator: char): (pieces: seq<string>)
    ensures |pieces| > 0
  {
    if s == "" then [""]
    else
      var rest := Split(s[1..], separator);
      if s[0] == separator then [""] + rest else [[s[0]] + rest[0]] + rest[1..]
  }

  function Join(pieces: seq<string>, separator: string): string {
    if pieces == [] then ""
    else if |pieces| == 1 then pieces[0]
    else pieces[0] + separator + Join(pieces[1..], separator)
  }

  /** The segments of a path that are neither empty nor the current directory. */
  function NamedSegments(pieces: seq<string>): seq<string> {
    if pieces == [] then []
    else (if pieces[0] == "" || pieces[0] == "." then [] else [pieces[0]]) + NamedSegments(pieces[1..])
  }

  function BaseName(name: string): string {
    var parts := NamedSegments(Split(Portable(name), '/'));
    if parts == [] then "" else parts[|parts| - 1]
  }

  function BaseNameSegments(casefold: string -> string, name: string): (segments: seq<string>)
    ensures |segments| > 0
  {
    Split(casefold(BaseName(name)), '.')
  }

  function FinalExtension(casefold: string -> string, name: string): Option<string> {
    var segments := BaseNameSegments(casefold, name);
    if |segments| > 1 then Some(segments[|segments| - 1]) else None
  }

  predicate HasDangerousExtension(casefold: string -> string, name: string) {
    var extension := FinalExtension(casefold, name);
    extension.Some? && extension.value in DANGEROUS_EXTENSIONS
  }

  predicate HasDangerousDoubleExtension(casefold: string -> string, name: string) {
    var segments := BaseNameSegments(casefold, name);
    && |segments| >= 3
    && segments[|segments| - 1] in DANGEROUS_EXTENSIONS
    && exists i | 1 <= i < |segments| - 1 :: segments[i] in BUSINESS_EXTENSIONS
  }

  predicate HasBidiControl(name: string) {
    exists c | c in name :: c in BIDI_CONTROLS
  }

  predicate IsTraversal(name: string) {
    ".." in Split(Portable(name), '/')
  }

  predicate IsLetter(c: char) { 'A' <= c <= 'Z' || 'a' <= c <= 'z' }

  predicate IsRooted(name: string) {
    || (|name| > 0 && Portable(name)[0] == '/')
    || (|name| >= 3 && IsLetter(name[0]) && name[1] == ':' && (name[2] == '\\' || name[2] == '/'))
  }

  /** Two names with the same key extract to the same place. */
  function CollisionKey(nfc: string -> string, name: string): string {
    var portable := Portable(nfc(name));
    (if |portable| > 0 && portable[0] == '/' then "/" else "")
    + Join(NamedSegments(Split(portable, '/')), "/")
  }

  // ---------------------------------------------------------------- what the predicates mean

  predicate IsSeparator(c: char) { c == '/' || c == '\\' }

  /** `piece` stands between two separators, or an end, at position `p`. */
  predicate StandsAt(s: string, separator: char, piece: string, p: nat) {
    && p + |piece| <= |s| && s[p..p + |piece|] == piece && separator !in piece
    && (p > 0 ==> s[p - 1] == separator) && (p + |piece| < |s| ==> s[p + |piece|] == separator)
  }

  /** The first piece ends at the first separator. */
  lemma {:induction false} FirstPiece(s: string, separator: char)
    ensures StandsAt(s, separator, Split(s, separator)[0], 0)
  {
    if s != "" && s[0] != separator {
      FirstPiece(s[1..], separator);
      var first := Split(s[1..], separator)[0];
      assert s[0..1 + |first|] == [s[0]] + s[1..][0..|first|];
    }
  }

  /** Every piece stands somewhere, and those after the first behind a separator. */
  lemma {:induction false} PieceStands(s: string, separator: char, k: nat) returns (p: nat)
    requires k < |Split(s, separator)|
    ensures StandsAt(s, separator, Split(s, separator)[k], p) && (k > 0 ==> p > 0)
  {
    if k == 0 {
      FirstPiece(s, separator);
      p := 0;
    } else {
      var rest := Split(s[1..], separator);
      var at := if s[0] == separator then k - 1 else k;
      var q := PieceStands(s[1..], separator, at);
      p := q + 1;
      assert s[p..p + |rest[at]|] == s[1..][q..q + |rest[at]|];
    }
  }

  /** What stands between separators is one of the pieces. */
  lemma {:induction false} StandingIsPiece(s: string, separator: char, piece: string, p: nat) returns (k: nat)
    requires StandsAt(s, separator, piece, p)
    ensures k < |Split(s, separator)| && Split(s, separator)[k] == piece && (p > 0 ==> k > 0)
  {
    if p == 0 {
      k := 0;
      if |piece| == |s| {
        SplitPlain(s, separator);
      } else {
        assert s == piece + [separator] + s[|piece| + 1..];
        SplitPrefix(piece, s[|piece| + 1..], separator);
      }
    } else {
      assert s[1..][p - 1..p - 1 + |piece|] == s[p..p + |piece|];
      var j := StandingIsPiece(s[1..], separator, piece, p - 1);
      k := if s[0] == separator then j + 1 else j;
    }
  }

  /** Two dots stand alone at position `p`, between slashes of either kind or an end. */
  predicate DotsAt(name: string, p: nat) {
    && p + 2 <= |name| && name[p] == '.' && name[p + 1] == '.'
    && (p > 0 ==> IsSeparator(name[p - 1])) && (p + 2 < |name| ==> IsSeparator(name[p + 2]))
  }

  /** A name leaves its directory exactly when two dots stand alone in it, with slashes of either kind. */
  lemma TraversalMeaning(name: string)
    ensures IsTraversal(name) <==> exists p: nat :: DotsAt(name, p)
  {
    var portable := Portable(name);
    if IsTraversal(name) {
      var k :| 0 <= k < |Split(portable, '/')| && Split(portable, '/')[k] == "..";
      var p := PieceStands(portable, '/', k);
      assert portable[p..p + 2][0] == '.' && portable[p..p + 2][1] == '.';
      assert DotsAt(name, p);
    }
    if p: nat :| DotsAt(name, p) {
      assert portable[p..p + 2] == "..";
      assert StandsAt(portable, '/', "..", p);
      var k := StandingIsPiece(portable, '/', "..", p);
    }
  }

  /** Splitting loses nothing and leaves no separator inside a piece, which determines it. */
  lemma {:induction false} SplitRoundTrip(s: string, separator: char)
    ensures Join(Split(s, separator), [separator]) == s
    ensures forall piece :: piece in Split(s, separator) ==> separator !in piece
  {
    if s != "" {
      var rest := Split(s[1..], separator);
      SplitRoundTrip(s[1..], separator);
      var pieces := Split(s, separator);
      if s[0] == separator {
        assert pieces[1..] == rest;
      } else {
        assert pieces[1..] == rest[1..];
        assert rest[0] in rest && pieces[0] == [s[0]] + rest[0];
        forall piece | piece in pieces ensures separator !in piece {
          assert piece == pieces[0] || piece in rest[1..];
        }
      }
    }
  }

  lemma {:induction false} SplitUnique(pieces: seq<string>, separator: char)
    requires pieces != [] && forall piece :: piece in pieces ==> separator !in piece
    ensures Split(Join(pieces, [separator]), separator) == pieces
  {
    assert pieces[0] in pieces;
    if |pieces| == 1 {
      SplitPlain(pieces[0], separator);
    } else {
      SplitUnique(pieces[1..], separator);
      SplitPrefix(pieces[0], Join(pieces[1..], [separator]), separator);
      assert pieces[0] + [separator] + Join(pieces[1..], [separator])
          == pieces[0] + ([separator] + Join(pieces[1..], [separator]));
      assert pieces == [pieces[0]] + pieces[1..];
    }
  }

  lemma {:induction false} SplitPlain(s: string, separator: char)
    requires separator !in s
    ensures Split(s, separator) == [s]
  {
    if s != "" {
      SplitPlain(s[1..], separator);
      assert s == [s[0]] + s[1..];
    }
  }

  lemma {:induction false} SplitPrefix(p: string, rest: string, separator: char)
    requires separator !in p
    ensures Split(p + [separator] + rest, separator) == [p] + Split(rest, separator)
  {
    var s := p + [separator] + rest;
    if p == "" {
      assert s[1..] == rest;
    } else {
      assert s[1..] == p[1..] + [separator] + rest;
      SplitPrefix(p[1..], rest, separator);
      assert [s[0]] + p[1..] == p;
    }
  }
}
