/**
 The `load_file_content` helper of `app_streamlit.py`: the file extension
 taken from the upload's name, dispatch on it, and the plain-text reader that
 splits on line feeds, trims every line and drops the blank ones.
 */
module Ingestion {
  import opened Maybe

  // Whitespace and trimming, as Python's `str.strip()` with no argument.

  /** The characters for which Python's `str.isspace()` holds: the ASCII
      controls TAB to CR and FS to US, SPACE, NEL, NO-BREAK SPACE, and the
      Unicode space separators, line and paragraph separators. */
  const Whitespace: set<char> := {
      '\U{9}', '\U{A}', '\U{B}', '\U{C}', '\U{D}', '\U{1C}', '\U{1D}',
      '\U{1E}', '\U{1F}', '\U{20}', '\U{85}', '\U{A0}', '\U{1680}', '\U{2000}',
      '\U{2001}', '\U{2002}', '\U{2003}', '\U{2004}', '\U{2005}', '\U{2006}', '\U{2007}',
      '\U{2008}', '\U{2009}', '\U{200A}', '\U{2028}', '\U{2029}', '\U{202F}', '\U{205F}',
      '\U{3000}'
    }

  predicate IsSpace(c: char)
  {
    c in Whitespace
  }

  predicate AllSpace(s: string)
  {
    forall k :: 0 <= k < |s| ==> IsSpace(s[k])
  }

  /** A non-empty string with no whitespace at either end. */
  predicate IsTrimmedLine(s: string)
  {
    |s| > 0 && !IsSpace(s[0]) && !IsSpace(s[|s| - 1])
  }

  /** `s` without its leading whitespace: what is dropped is whitespace,
      and what is kept does not start with whitespace. That the result is
      the rest of `s` is `TrimStartIsSuffix`. */
  function TrimStart(s: string): (r: string)
    ensures |r| <= |s|
    ensures forall k :: 0 <= k < |s| - |r| ==> IsSpace(s[k])
    ensures r == [] || !IsSpace(r[0])
    decreases |s|
  {
    if |s| > 0 && IsSpace(s[0]) then TrimStart(s[1..]) else s
  }

  /** `s` without its trailing whitespace: a prefix of `s` that does not end
      with whitespace, followed in `s` by whitespace only. */
  function TrimEnd(s: string): (r: string)
    ensures |r| <= |s| && r == s[..|r|]
    ensures forall k :: |r| <= k < |s| ==> IsSpace(s[k])
    ensures r == [] || !IsSpace(r[|r| - 1])
    decreases |s|
  {
    if |s| > 0 && IsSpace(s[|s| - 1]) then TrimEnd(s[..|s| - 1]) else s
  }

  /** Trimming the start keeps the suffix of `s` after a whitespace prefix. */
  lemma {:induction false} TrimStartIsSuffix(s: string)
    ensures TrimStart(s) == s[|s| - |TrimStart(s)|..]
    ensures AllSpace(s[..|s| - |TrimStart(s)|])
    decreases |s|
  {
    if |s| > 0 && IsSpace(s[0]) {
      TrimStartIsSuffix(s[1..]);
      assert s[1..][|s| - 1 - |TrimStart(s)|..] == s[|s| - |TrimStart(s)|..];
    }
  }

  /** What trimming the end removes is whitespace. */
  lemma {:induction false} TrimEndLeavesSpace(s: string)
    ensures AllSpace(s[|TrimEnd(s)|..])
  {
    var n := |TrimEnd(s)|;
    assert forall k :: 0 <= k < |s| - n ==> s[n..][k] == s[n + k];
  }

  /** A string is all whitespace exactly when both parts around `i` are. */
  lemma {:induction false} AllSpaceAt(s: string, i: nat)
    requires i <= |s|
    ensures AllSpace(s) <==> AllSpace(s[..i]) && AllSpace(s[i..])
  {
    if AllSpace(s[..i]) && AllSpace(s[i..]) {
      forall k | 0 <= k < |s|
        ensures IsSpace(s[k])
      {
        if k < i { assert s[k] == s[..i][k]; } else { assert s[k] == s[i..][k - i]; }
      }
    }
  }

  /** Python's `s.strip()`. It is empty exactly when `s` is all whitespace,
      and otherwise has no whitespace at either end. */
  function Strip(s: string): (r: string)
    ensures r == [] <==> AllSpace(s)
    ensures r == [] || IsTrimmedLine(r)
  {
    StripEmpty(s);
    TrimEnd(TrimStart(s))
  }

  /** Stripping removes whitespace only: the result is the slice of `s` that
      starts after its leading whitespace, and what follows it is whitespace. */
  lemma {:induction false} StripIsSlice(s: string)
    ensures var i := |s| - |TrimStart(s)|;
            var r := Strip(s);
            && i + |r| <= |s| && r == s[i..i + |r|]
            && AllSpace(s[..i]) && AllSpace(s[i + |r|..])
  {
    var t := TrimStart(s);
    var r := TrimEnd(t);
    var i := |s| - |t|;
    TrimStartIsSuffix(s);
    TrimEndLeavesSpace(t);
    assert t[|r|..] == s[i + |r|..];
    assert Strip(s) == r;
  }

  lemma {:induction false} StripEmpty(s: string)
    ensures TrimEnd(TrimStart(s)) == [] <==> AllSpace(s)
  {
    var t := TrimStart(s);
    var r := TrimEnd(t);
    var i := |s| - |t|;
    TrimStartIsSuffix(s);
    TrimEndLeavesSpace(t);
    AllSpaceAt(s, i);
    assert s[i..] == t;
    if r == [] {
      assert t[|r|..] == t;
    }
  }

  /** Stripping a trimmed line (or the empty string) changes nothing. */
  lemma {:induction false} StripTrimmed(s: string)
    requires s == [] || IsTrimmedLine(s)
    ensures Strip(s) == s
  {
  }

  /** Stripping twice is stripping once. */
  lemma {:induction false} StripIdempotent(s: string)
    ensures Strip(Strip(s)) == Strip(s)
  {
    StripTrimmed(Strip(s));
  }

  // Python's `s.split(sep)` with an explicit one-character separator.

  /** The number of occurrences of `c` in `s`. */
  function Count(s: string, c: char): nat
  {
    if |s| == 0 then 0 else (if s[0] == c then 1 else 0) + Count(s[1..], c)
  }

  /** The pieces of `s` between occurrences of `sep`; empty pieces are kept,
      so there is always one piece more than there are separators. */
  function Split(s: string, sep: char): (r: seq<string>)
    ensures |r| == Count(s, sep) + 1
    ensures forall k :: 0 <= k < |r| ==> sep !in r[k]
    decreases |s|
  {
    if |s| == 0 then [[]]
    else
      var rest := Split(s[1..], sep);
      if s[0] == sep then [[]] + rest
      else [[s[0]] + rest[0]] + rest[1..]
  }

  /** Python's `sep.join(pieces)`. */
  function Join(pieces: seq<string>, sep: char): string
  {
    if |pieces| == 0 then []
    else if |pieces| == 1 then pieces[0]
    else pieces[0] + [sep] + Join(pieces[1..], sep)
  }

  lemma {:induction false} JoinPrependToHead(x: string, pieces: seq<string>, sep: char)
    requires |pieces| > 0
    ensures Join([x + pieces[0]] + pieces[1..], sep) == x + Join(pieces, sep)
  {
    var ps := [x + pieces[0]] + pieces[1..];
    assert ps[1..] == pieces[1..];
  }

  /** Joining the pieces with the separator gives back the string. */
  lemma {:induction false} JoinSplit(s: string, sep: char)
    ensures Join(Split(s, sep), sep) == s
    decreases |s|
  {
    if |s| > 0 {
      var rest := Split(s[1..], sep);
      JoinSplit(s[1..], sep);
      if s[0] == sep {
        var ps := [[]] + rest;
        assert ps[1..] == rest;
        assert s == [sep] + s[1..];
      } else {
        JoinPrependToHead([s[0]], rest, sep);
        assert s == [s[0]] + s[1..];
      }
    }
  }

  /** A string without the separator is a single piece. */
  lemma {:induction false} SplitWithoutSeparator(s: string, sep: char)
    requires sep !in s
    ensures Split(s, sep) == [s]
    decreases |s|
  {
    if |s| > 0 {
      assert s[1..] == s[|s| - |s[1..]|..];
      assert forall c :: c in s[1..] ==> c in s;
      SplitWithoutSeparator(s[1..], sep);
      assert s == [s[0]] + s[1..];
    }
  }

  /** Splitting distributes over a separator placed between two strings. */
  lemma {:induction false} SplitAppend(a: string, b: string, sep: char)
    ensures Split(a + [sep] + b, sep) == Split(a, sep) + Split(b, sep)
    decreases |a|
  {
    var s := a + [sep] + b;
    if |a| == 0 {
      assert s[1..] == b;
    } else {
      assert s[1..] == a[1..] + [sep] + b;
      SplitAppend(a[1..], b, sep);
    }
  }

  /** Separated pieces that do not contain the separator split back into
      themselves. */
  lemma {:induction false} SplitJoin(pieces: seq<string>, sep: char)
    requires |pieces| > 0
    requires forall k :: 0 <= k < |pieces| ==> sep !in pieces[k]
    ensures Split(Join(pieces, sep), sep) == pieces
    decreases |pieces|
  {
    SplitWithoutSeparator(pieces[0], sep);
    if |pieces| > 1 {
      SplitJoin(pieces[1..], sep);
      SplitAppend(pieces[0], Join(pieces[1..], sep), sep);
      assert pieces == [pieces[0]] + pieces[1..];
    }
  }

  /** The last piece is all of `s` when there is no separator, and otherwise
      the suffix of `s` after its last separator. */
  lemma {:induction false} LastPieceIsSuffix(s: string, sep: char)
    ensures var ps := Split(s, sep);
            var last := ps[|ps| - 1];
            && (|ps| == 1 ==> last == s)
            && (|ps| > 1 ==> |last| < |s| && last == s[|s| - |last|..] && s[|s| - |last| - 1] == sep)
    decreases |s|
  {
    if |s| > 0 {
      var rest := Split(s[1..], sep);
      var ps := Split(s, sep);
      LastPieceIsSuffix(s[1..], sep);
      var last := rest[|rest| - 1];
      if s[0] == sep || |rest| > 1 {
        assert ps[|ps| - 1] == last;
        assert s[1..][|s| - 1 - |last|..] == s[|s| - |last|..];
        if |rest| > 1 {
          assert s[1..][|s| - 1 - |last| - 1] == s[|s| - |last| - 1];
        }
      } else {
        assert ps == [[s[0]] + s[1..]];
        assert [s[0]] + s[1..] == s;
      }
    }
  }

  // The file extension.

  function LowerChar(c: char): char
  {
    if 'A' <= c <= 'Z' then (c as int + 32) as char else c
  }

  /** Lowercases ASCII letters and leaves every other character alone. */
  function ToLower(s: string): string
  {
    seq(|s|, k requires 0 <= k < |s| => LowerChar(s[k]))
  }

  /** The extension of a file name: the text after its last dot, lowercased,
      or the whole name lowercased when it has no dot. */
  function FileExtension(name: string): (ext: string)
    ensures '.' !in ext
    ensures '.' !in name ==> ext == ToLower(name)
    ensures |ext| <= |name|
    ensures |ext| == |name| || name[|name| - |ext| - 1] == '.'
  {
    var pieces := Split(name, '.');
    LastPieceIsSuffix(name, '.');
    ToLower(pieces[|pieces| - 1])
  }

  /** The extension is the lowercased text that ends the name. */
  lemma {:induction false} ExtensionIsSuffix(name: string)
    ensures ToLower(name[|name| - |FileExtension(name)|..]) == FileExtension(name)
  {
    LastPieceIsSuffix(name, '.');
  }

  /** A file name whose text after the last dot is `ext` has extension
      `ext`, lowercased, whatever comes before the dot. */
  lemma {:induction false} ExtensionAfterLastDot(stem: string, ext: string)
    requires '.' !in ext
    ensures FileExtension(stem + ['.'] + ext) == ToLower(ext)
  {
    SplitAppend(stem, ext, '.');
    SplitWithoutSeparator(ext, '.');
  }

  // The plain-text reader.

  /** Each piece stripped of surrounding whitespace, in order, keeping only
      the pieces that are not blank. */
  function NonBlankLines(pieces: seq<string>): (lines: seq<string>)
    ensures |lines| <= |pieces|
    ensures forall k :: 0 <= k < |lines| ==> IsTrimmedLine(lines[k])
    decreases |pieces|
  {
    if |pieces| == 0 then []
    else
      KeepLine(pieces[0]) + NonBlankLines(pieces[1..])
  }

  /** One piece's contribution: its stripped text, unless that is empty. */
  function KeepLine(piece: string): (kept: seq<string>)
    ensures |kept| <= 1
    ensures forall k :: 0 <= k < |kept| ==> IsTrimmedLine(kept[k])
  {
    var line := Strip(piece);
    if line != [] then [line] else []
  }

  /** A blank piece contributes nothing, and any other piece contributes
      exactly its stripped form. */
  lemma {:induction false} KeepLineIsStrippedPiece(piece: string)
    ensures KeepLine(piece) == [] <==> AllSpace(piece)
    ensures KeepLine(piece) != [] ==> KeepLine(piece) == [Strip(piece)]
  {
  }

  /** Some piece strips to `x`. */
  ghost predicate SomePieceStripsTo(pieces: seq<string>, x: string)
  {
    exists k :: 0 <= k < |pieces| && Strip(pieces[k]) == x
  }

  lemma {:induction false} SomePieceStripsToCons(pieces: seq<string>, x: string)
    requires |pieces| > 0
    ensures SomePieceStripsTo(pieces, x) <==> Strip(pieces[0]) == x || SomePieceStripsTo(pieces[1..], x)
  {
    if SomePieceStripsTo(pieces, x) && Strip(pieces[0]) != x {
      var k :| 0 <= k < |pieces| && Strip(pieces[k]) == x;
      assert pieces[1..][k - 1] == pieces[k];
    }
    if SomePieceStripsTo(pieces[1..], x) {
      var k :| 0 <= k < |pieces[1..]| && Strip(pieces[1..][k]) == x;
      assert pieces[k + 1] == pieces[1..][k];
    }
  }

  /** A string is a line of the result exactly when it is the non-empty
      stripped form of some piece. */
  lemma {:induction false} NonBlankLinesMembership(pieces: seq<string>, x: string)
    ensures x in NonBlankLines(pieces) <==> x != [] && SomePieceStripsTo(pieces, x)
    decreases |pieces|
  {
    if |pieces| > 0 {
      NonBlankLinesMembership(pieces[1..], x);
      SomePieceStripsToCons(pieces, x);
      var head := KeepLine(pieces[0]);
      var rest := NonBlankLines(pieces[1..]);
      assert NonBlankLines(pieces) == head + rest;
      assert x in head <==> x != [] && Strip(pieces[0]) == x;
    }
  }

  /** No line survives exactly when every piece is blank. */
  lemma {:induction false} NonBlankLinesEmpty(pieces: seq<string>)
    ensures NonBlankLines(pieces) == [] <==> forall k :: 0 <= k < |pieces| ==> AllSpace(pieces[k])
    decreases |pieces|
  {
    if |pieces| > 0 {
      var rest := pieces[1..];
      NonBlankLinesEmpty(rest);
      KeepLineIsStrippedPiece(pieces[0]);
      assert NonBlankLines(pieces) == KeepLine(pieces[0]) + NonBlankLines(rest);
      if forall k :: 0 <= k < |pieces| ==> AllSpace(pieces[k]) {
        assert AllSpace(pieces[0]);
        forall k | 0 <= k < |rest|
          ensures AllSpace(rest[k])
        {
          assert rest[k] == pieces[k + 1];
        }
      } else {
        var k :| 0 <= k < |pieces| && !AllSpace(pieces[k]);
        if k > 0 {
          assert rest[k - 1] == pieces[k];
        }
      }
    }
  }

  /** The reviews of a `.txt` upload: its lines, trimmed, blank ones dropped. */
  function TxtLines(content: string): (lines: seq<string>)
    ensures forall k :: 0 <= k < |lines| ==> IsTrimmedLine(lines[k])
    ensures |lines| <= Count(content, '\n') + 1
    ensures lines == [] <==> AllSpace(content)
  {
    NoLinesWhenBlank(content);
    NonBlankLines(Split(content, '\n'))
  }

  lemma {:induction false} NoLinesWhenBlank(content: string)
    ensures NonBlankLines(Split(content, '\n')) == [] <==> AllSpace(content)
  {
    assert IsSpace('\n');
    SplitAllSpace(content, '\n');
    NonBlankLinesEmpty(Split(content, '\n'));
  }

  /** A string is a review of a `.txt` body exactly when it is the
      non-empty stripped form of one of the body's lines. */
  lemma {:induction false} TxtLinesMembership(content: string, x: string)
    ensures x in TxtLines(content) <==> x != [] && SomePieceStripsTo(Split(content, '\n'), x)
  {
    NonBlankLinesMembership(Split(content, '\n'), x);
  }

  /** Text without a line feed is one line: its stripped form, or nothing
      when it is blank. */
  lemma {:induction false} TxtLinesOfOneLine(content: string)
    requires '\n' !in content
    ensures TxtLines(content) == KeepLine(content)
  {
    SplitWithoutSeparator(content, '\n');
    assert [content][1..] == [];
  }

  /** With a whitespace separator, a string is all whitespace exactly when
      every piece is. */
  lemma {:induction false} SplitAllSpace(s: string, sep: char)
    requires IsSpace(sep)
    ensures AllSpace(s) <==> forall k :: 0 <= k < |Split(s, sep)| ==> AllSpace(Split(s, sep)[k])
  {
    JoinSplit(s, sep);
    JoinAllSpace(Split(s, sep), sep);
  }

  /** Joined with a whitespace separator, pieces are all whitespace exactly
      when every piece is. */
  lemma {:induction false} JoinAllSpace(ps: seq<string>, sep: char)
    requires IsSpace(sep)
    ensures AllSpace(Join(ps, sep)) <==> forall k :: 0 <= k < |ps| ==> AllSpace(ps[k])
    decreases |ps|
  {
    if |ps| > 1 {
      var tail := Join(ps[1..], sep);
      JoinAllSpace(ps[1..], sep);
      AllSpaceAppend(ps[0], [sep] + tail);
      AllSpaceCons(sep, tail);
      assert Join(ps, sep) == ps[0] + ([sep] + tail);
      assert forall k :: 0 < k < |ps| ==> ps[k] == ps[1..][k - 1];
    }
  }

  lemma {:induction false} AllSpaceAppend(a: string, b: string)
    ensures AllSpace(a + b) <==> AllSpace(a) && AllSpace(b)
  {
    AllSpaceAt(a + b, |a|);
    assert (a + b)[..|a|] == a;
    assert (a + b)[|a|..] == b;
  }

  lemma {:induction false} AllSpaceCons(c: char, t: string)
    ensures AllSpace([c] + t) <==> IsSpace(c) && AllSpace(t)
  {
    var s := [c] + t;
    AllSpaceAt(s, 1);
    assert s[..1] == [c];
    assert s[1..] == t;
    if AllSpace(s) {
      assert IsSpace(s[0]);
    }
  }

  lemma {:induction false} NonBlankLinesAppend(ps: seq<string>, qs: seq<string>)
    ensures NonBlankLines(ps + qs) == NonBlankLines(ps) + NonBlankLines(qs)
    decreases |ps|
  {
    if |ps| == 0 {
      assert ps + qs == qs;
    } else {
      assert (ps + qs)[0] == ps[0];
      assert (ps + qs)[1..] == ps[1..] + qs;
      NonBlankLinesAppend(ps[1..], qs);
    }
  }

  /** The reader keeps input order: the lines of two texts joined by a line
      feed are the lines of the first followed by the lines of the second. */
  lemma {:induction false} TxtLinesAppend(a: string, b: string)
    ensures TxtLines(a + ['\n'] + b) == TxtLines(a) + TxtLines(b)
  {
    SplitAppend(a, b, '\n');
    NonBlankLinesAppend(Split(a, '\n'), Split(b, '\n'));
  }

  lemma {:induction false} NonBlankLinesOfTrimmed(lines: seq<string>)
    requires forall k :: 0 <= k < |lines| ==> IsTrimmedLine(lines[k])
    ensures NonBlankLines(lines) == lines
    decreases |lines|
  {
    if |lines| > 0 {
      StripTrimmed(lines[0]);
      NonBlankLinesOfTrimmed(lines[1..]);
    }
  }

  /** Writing trimmed lines one per line and reading the text back gives
      the same lines. */
  lemma {:induction false} TxtLinesRoundTrip(lines: seq<string>)
    requires forall k :: 0 <= k < |lines| ==> IsTrimmedLine(lines[k]) && '\n' !in lines[k]
    ensures TxtLines(Join(lines, '\n')) == lines
  {
    if |lines| == 0 {
      assert Split([], '\n') == [[]];
    } else {
      SplitJoin(lines, '\n');
      NonBlankLinesOfTrimmed(lines);
    }
  }

  /** Reading a line again changes nothing: every line is already stripped. */
  lemma {:induction false} TxtLinesAreStripped(content: string)
    ensures var lines := TxtLines(content);
            forall k :: 0 <= k < |lines| ==> Strip(lines[k]) == lines[k]
  {
    var lines := TxtLines(content);
    forall k | 0 <= k < |lines|
      ensures Strip(lines[k]) == lines[k]
    {
      StripTrimmed(lines[k]);
    }
  }

  // Dispatch on the extension.

  datatype Format = Json | Csv | Txt | Unsupported

  function FormatOf(name: string): Format
  {
    var ext := FileExtension(name);
    if ext == "json" then Json
    else if ext == "csv" then Csv
    else if ext == "txt" then Txt
    else Unsupported
  }

  /** The format of a name is decided by the text after its last dot alone. */
  lemma {:induction false} FormatAfterLastDot(stem: string, ext: string)
    requires '.' !in ext
    ensures FormatOf(stem + ['.'] + ext) == FormatOf(ext)
  {
    ExtensionAfterLastDot(stem, ext);
  }

  lemma LowerTxt()
    ensures ToLower("TXT") == "txt"
    ensures ToLower("txt") == "txt"
  {
  }

  /** Dispatch ignores letter case: any name ending in `.TXT` is plain text. */
  lemma {:induction false} UpperCaseTxt(stem: string)
    ensures FormatOf(stem + ".TXT") == Txt
  {
    FormatAfterLastDot(stem, "TXT");
    assert stem + ".TXT" == stem + ['.'] + "TXT";
    LowerTxt();
  }

  /** Only the text after the last dot counts: a name ending in `.txt.json`
      is JSON. */
  lemma {:induction false} LastDotDecides(stem: string)
    ensures FormatOf(stem + ".txt.json") == Json
  {
    FormatAfterLastDot(stem + ".txt", "json");
    assert stem + ".txt.json" == stem + ".txt" + ['.'] + "json";
    assert ToLower("json") == "json";
  }

  /** A name without a dot is its own extension: a file called `txt` is read
      as plain text. */
  lemma DotlessName()
    ensures FormatOf("txt") == Txt
  {
    LowerTxt();
  }

  /** An uploaded file: its name and its body decoded as text. */
  datatype Upload = Upload(name: string, content: string)

  /** `load_file_content`. The JSON reader (`json.load` followed by
      `get('comments', [])`) and the CSV reader (the first column of
      `pd.read_csv`) are library code and come in as parameters. */
  function LoadFileContent(
    file: Option<Upload>,
    readJson: string -> seq<string>,
    readCsv: string -> seq<string>): (reviews: seq<string>)
    ensures file.None? ==> reviews == []
    ensures file.Some? && FormatOf(file.value.name) == Unsupported ==> reviews == []
    ensures file.Some? && FormatOf(file.value.name) == Txt ==>
              && reviews == TxtLines(file.value.content)
              && (forall k :: 0 <= k < |reviews| ==> IsTrimmedLine(reviews[k]))
              && (reviews == [] <==> AllSpace(file.value.content))
    ensures file.Some? && FormatOf(file.value.name) == Json ==> reviews == readJson(file.value.content)
    ensures file.Some? && FormatOf(file.value.name) == Csv ==> reviews == readCsv(file.value.content)
  {
    match file
    case None => []
    case Some(upload) =>
      match FormatOf(upload.name)
      case Json => readJson(upload.content)
      case Csv => readCsv(upload.content)
      case Txt => TxtLines(upload.content)
      case Unsupported => []
  }
}
