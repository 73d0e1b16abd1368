/** 8.3 name normalisation (ShortNameParts in UefiSupport.cs). */
module ShortNames {
  predicate IsShortChar(c: char) {
    'A' <= c <= 'Z' || '0' <= c <= '9'
  }

  /** ASCII part of ToUpperInvariant. */
  function Upper(c: char): char {
    if 'a' <= c <= 'z' then c - 'a' + 'A' else c
  }

  /** What one character contributes. */
  function KeptChar(c: char): (r: string)
    ensures |r| <= 1
  {
    if IsShortChar(Upper(c)) then [Upper(c)] else []
  }

  /** The characters of `s` that survive sanitising, upper-cased, in order. */
  function Kept(s: string): (r: string)
    ensures |r| <= |s|
  {
    if s == [] then [] else KeptChar(s[0]) + Kept(s[1..])
  }

  /** What Sanitize computes: the first `max` kept characters, or "X" when none is kept. */
  function Sanitized(s: string, max: nat): string {
    var k := Kept(s);
    if k == [] then "X" else if |k| <= max then k else k[..max]
  }

  predicate IsShortName(s: string, max: nat) {
    1 <= |s| <= max && forall c <- s :: IsShortChar(c)
  }

  lemma {:induction false} KeptLegal(s: string)
    ensures forall c <- Kept(s) :: IsShortChar(c)
  {
    if s != [] {
      KeptLegal(s[1..]);
    }
  }

  lemma KeptStep(s: string)
    ensures Kept(s) == if s == [] then [] else KeptChar(s[0]) + Kept(s[1..])
  {
  }

  lemma {:induction false} KeptSnoc(s: string, c: char)
    ensures Kept(s + [c]) == Kept(s) + KeptChar(c)
  {
    hide Kept, KeptChar;
    KeptStep(s);
    KeptStep(s + [c]);
    if s == [] {
      KeptStep([]);
      assert (s + [c])[1..] == [] && (s + [c])[0] == c;
      assert KeptChar(c) + [] == [] + KeptChar(c);
    } else {
      assert (s + [c])[1..] == s[1..] + [c] && (s + [c])[0] == s[0];
      KeptSnoc(s[1..], c);
      assert KeptChar(s[0]) + (Kept(s[1..]) + KeptChar(c)) == (KeptChar(s[0]) + Kept(s[1..])) + KeptChar(c);
    }
  }

  lemma {:induction false} KeptPrefix(s: string, n: nat)
    requires n <= |s|
    ensures Kept(s[..n]) <= Kept(s)
  {
    if n == |s| {
      assert s[..n] == s;
    } else {
      KeptPrefix(s[..|s| - 1], n);
      assert s[..|s| - 1][..n] == s[..n];
      KeptSnoc(s[..|s| - 1], s[|s| - 1]);
      assert s[..|s| - 1] + [s[|s| - 1]] == s;
    }
  }

  lemma {:induction false} KeptOfShort(s: string)
    requires forall c <- s :: IsShortChar(c)
    ensures Kept(s) == s
  {
    if s != [] {
      assert IsShortChar(s[0]);
      assert s == [s[0]] + s[1..];
      KeptOfShort(s[1..]);
    }
  }

  /** A sanitised name is a legal short name and sanitising it again changes nothing. */
  lemma SanitizedIsShort(s: string, max: nat)
    requires max > 0
    ensures IsShortName(Sanitized(s, max), max)
    ensures Sanitized(Sanitized(s, max), max) == Sanitized(s, max)
  {
    KeptLegal(s);
    KeptOfShort(Sanitized(s, max));
  }

  /** Sanitize's loop, which stops as soon as `max` characters are collected. */
  method Sanitize(rawName: string, max: nat) returns (r: string)
    requires max > 0
    ensures r == Sanitized(rawName, max)
  {
    var builder: string := [];
    var i := 0;
    while i < |rawName|
      invariant 0 <= i <= |rawName|
      invariant builder == Kept(rawName[..i])
      invariant |builder| < max
    {
      var ch := Upper(rawName[i]);
      assert rawName[..i + 1] == rawName[..i] + [rawName[i]];
      KeptSnoc(rawName[..i], rawName[i]);
      if IsShortChar(ch) {
        builder := builder + [ch];
      }
      if |builder| == max {
        KeptPrefix(rawName, i + 1);
        return builder;
      }
      i := i + 1;
    }
    assert rawName[..i] == rawName;
    if |builder| == 0 {
      builder := "X";
    }
    return builder;
  }

  /** Index of the last '.' of `s`, or -1. */
  function LastDot(s: string): (r: int)
    ensures -1 <= r < |s|
    ensures r >= 0 ==> s[r] == '.'
    ensures forall i | r < i < |s| :: s[i] != '.'
  {
    if s == [] then -1
    else if s[|s| - 1] == '.' then |s| - 1
    else LastDot(s[..|s| - 1])
  }

  datatype ShortName = ShortName(name: string, extension: string)

  function NormalizeName(raw: string): (r: ShortName)
    ensures IsShortName(r.name, 8) && r.extension == ""
  {
    SanitizedIsShort(raw, 8);
    ShortName(Sanitized(raw, 8), "")
  }

  /** The extension is what follows the last '.', so it holds no '.' of its own. */
  function NormalizeFile(raw: string): (r: ShortName)
    ensures IsShortName(r.name, 8) && IsShortName(r.extension, 3)
  {
    var dot := LastDot(raw);
    var stem := if dot < 0 then raw else raw[..dot];
    var ext := if dot < 0 then "" else raw[dot + 1..];
    SanitizedIsShort(stem, 8);
    SanitizedIsShort(ext, 3);
    ShortName(Sanitized(stem, 8), Sanitized(ext, 3))
  }

  predicate IsWhiteSpace(c: char) {
    var n := c as int;
    9 <= n <= 13 || n == 0x20 || n == 0x85 || n == 0xA0 || n == 0x1680 || 0x2000 <= n <= 0x200A
    || n == 0x2028 || n == 0x2029 || n == 0x202F || n == 0x205F || n == 0x3000
  }

  function Trim(s: string): string {
    if s == [] then s
    else if IsWhiteSpace(s[0]) then Trim(s[1..])
    else if IsWhiteSpace(s[|s| - 1]) then Trim(s[..|s| - 1])
    else s
  }

  /** Split on '\' and '/', trim every piece, drop the empty ones. */
  function Segments(path: string): seq<string> {
    SegmentsFrom(path, [])
  }

  function SegmentsFrom(path: string, current: string): seq<string>
    decreases |path|
  {
    var piece := if Trim(current) == "" then [] else [Trim(current)];
    if path == [] then piece
    else if path[0] == '\\' || path[0] == '/' then piece + SegmentsFrom(path[1..], [])
    else SegmentsFrom(path[1..], current + [path[0]])
  }

  // ---- what the splitting and the normalising do to a written path ----

  /** White space as the Unicode standard lists it. */
  lemma WhiteSpaceIs(c: char)
    ensures IsWhiteSpace(c) <==>
              c as int in [0x9, 0xA, 0xB, 0xC, 0xD, 0x20, 0x85, 0xA0, 0x1680, 0x2000, 0x2001, 0x2002, 0x2003, 0x2004,
                           0x2005, 0x2006, 0x2007, 0x2008, 0x2009, 0x200A, 0x2028, 0x2029, 0x202F, 0x205F, 0x3000]
  {
  }

  ghost predicate Blank(s: string) {
    forall c <- s :: IsWhiteSpace(c)
  }

  /** A name that neither starts nor ends with white space and holds no separator. */
  ghost predicate PlainName(s: string) {
    && '\\' !in s && '/' !in s
    && (s != "" ==> !IsWhiteSpace(s[0]) && !IsWhiteSpace(s[|s| - 1]))
  }

  lemma {:induction false} TrimIs(left: string, core: string, right: string)
    requires Blank(left) && Blank(right) && PlainName(core)
    ensures Trim(left + core + right) == core
    decreases |left| + |right|
  {
    var s := left + core + right;
    if left != [] {
      assert s[0] == left[0] && left[0] in left && s[1..] == left[1..] + core + right;
      TrimIs(left[1..], core, right);
    } else if right != [] {
      var r := right[..|right| - 1];
      assert s[|s| - 1] == right[|right| - 1] && right[|right| - 1] in right && s[..|s| - 1] == left + core + r;
      if core != [] {
        assert s[0] == core[0];
        TrimIs(left, core, r);
      } else {
        assert s == right && right[0] in right && s[1..] == left + core + right[1..];
        TrimIs(left, core, right[1..]);
      }
    } else {
      assert s == core;
    }
  }

  /** A separator of either kind ends a segment. */
  lemma {:induction false} SegmentsJoin(a: string, separator: char, b: string, current: string)
    requires separator == '\\' || separator == '/'
    ensures SegmentsFrom(a + [separator] + b, current) == SegmentsFrom(a, current) + Segments(b)
    decreases |a|
  {
    hide Trim;
    var s := a + [separator] + b;
    if a == [] {
      assert s[0] == separator && s[1..] == b;
    } else {
      assert s[0] == a[0] && s[1..] == a[1..] + [separator] + b;
      if a[0] == '\\' || a[0] == '/' {
        SegmentsJoin(a[1..], separator, b, []);
      } else {
        SegmentsJoin(a[1..], separator, b, current + [a[0]]);
      }
    }
  }

  /** Text without separators is one segment, or none if it is blank. */
  lemma {:induction false} SegmentsOne(s: string, current: string)
    requires '\\' !in s && '/' !in s
    ensures SegmentsFrom(s, current) == if Trim(current + s) == "" then [] else [Trim(current + s)]
    decreases |s|
  {
    hide Trim;
    if s == [] {
      assert current + s == current;
    } else {
      assert s[0] in s && current + [s[0]] + s[1..] == current + s;
      SegmentsOne(s[1..], current + [s[0]]);
    }
  }

  /** A name as it stands in a path, possibly empty, with white space around it. */
  datatype Piece = Piece(left: string, name: string, right: string)
  {
    ghost predicate Plain() { Blank(left) && Blank(right) && PlainName(name) }

    function Text(): string { left + name + right }
  }

  /** The pieces with one separator, of either kind, between each two. */
  function WrittenPath(pieces: seq<Piece>, separators: string): string
    requires |pieces| == |separators| + 1
  {
    if separators == "" then pieces[0].Text()
    else pieces[0].Text() + [separators[0]] + WrittenPath(pieces[1..], separators[1..])
  }

  function NamesOf(pieces: seq<Piece>): seq<string> {
    if pieces == [] then []
    else (if pieces[0].name == "" then [] else [pieces[0].name]) + NamesOf(pieces[1..])
  }

  lemma BlankHasNoSeparator(s: string)
    requires Blank(s)
    ensures '\\' !in s && '/' !in s
  {
  }

  lemma PieceSegments(p: Piece)
    requires p.Plain()
    ensures Segments(p.Text()) == NamesOf([p])
  {
    hide SegmentsFrom, Trim, IsWhiteSpace;
    BlankHasNoSeparator(p.left);
    BlankHasNoSeparator(p.right);
    TrimIs(p.left, p.name, p.right);
    SegmentsOne(p.Text(), "");
    assert "" + p.Text() == p.Text();
  }

  /** Splitting gives the names of a written path back, whichever separators stand between them
      and whatever white space or empty pieces surround them. */
  lemma {:induction false} WrittenSplits(pieces: seq<Piece>, separators: string)
    requires |pieces| == |separators| + 1 && forall p <- pieces :: p.Plain()
    requires forall c <- separators :: c == '\\' || c == '/'
    ensures Segments(WrittenPath(pieces, separators)) == NamesOf(pieces)
    decreases |separators|
  {
    hide SegmentsFrom, Trim, IsWhiteSpace;
    assert pieces[0] in pieces;
    PieceSegments(pieces[0]);
    if separators == "" {
      assert pieces == [pieces[0]];
    } else {
      assert separators[0] in separators && forall c <- separators[1..] :: c in separators;
      assert forall p <- pieces[1..] :: p in pieces;
      WrittenSplits(pieces[1..], separators[1..]);
      SegmentsJoin(pieces[0].Text(), separators[0], WrittenPath(pieces[1..], separators[1..]), "");
      assert NamesOf([pieces[0]]) + NamesOf(pieces[1..]) == NamesOf(pieces);
    }
  }

  /** `s` spells `t`, a string of capital letters and digits, in letters of either case. */
  ghost predicate Spells(s: string, t: string) {
    |s| == |t| && forall i :: 0 <= i < |s| ==>
      || ('A' <= t[i] <= 'Z' && (s[i] == t[i] || s[i] as int == t[i] as int + 32))
      || ('0' <= t[i] <= '9' && s[i] == t[i])
  }

  lemma {:induction false} KeptSpelled(s: string, t: string)
    requires Spells(s, t)
    ensures Kept(s) == t
    decreases |s|
  {
    if s != [] {
      assert Spells(s[1..], t[1..]);
      KeptSpelled(s[1..], t[1..]);
    }
  }

  /** Any other character is dropped, wherever it stands. */
  lemma {:induction false} OthersDropped(a: string, c: char, b: string)
    requires !('A' <= c <= 'Z') && !('a' <= c <= 'z') && !('0' <= c <= '9')
    ensures Kept(a + [c] + b) == Kept(a + b)
    decreases |a|
  {
    var s := a + [c] + b;
    if a == [] {
      assert s[0] == c && s[1..] == b && a + b == b;
    } else {
      assert s[0] == a[0] && s[1..] == a[1..] + [c] + b && (a + b)[0] == a[0] && (a + b)[1..] == a[1..] + b;
      OthersDropped(a[1..], c, b);
    }
  }

  /** A short name is what its first characters spell, or X. */
  lemma SpelledName(s: string, t: string, max: nat)
    requires max > 0 && Spells(s, t)
    ensures Sanitized(s, max) == if |t| == 0 then "X" else if |t| <= max then t else t[..max]
  {
    KeptSpelled(s, t);
  }

  /** The last dot divides a file name; without one the extension reads X, as an empty one does. */
  lemma FileNameSplits(stem: string, extension: string)
    requires '.' !in extension
    ensures NormalizeFile(stem + "." + extension) == ShortName(Sanitized(stem, 8), Sanitized(extension, 3))
    ensures NormalizeFile(extension) == ShortName(Sanitized(extension, 8), "X")
  {
    hide Kept, Sanitized;
    var raw := stem + "." + extension;
    assert Spells("", "");
    SpelledName("", "", 3);
    assert forall i :: |stem| < i < |raw| ==> raw[i] == extension[i - |stem| - 1];
    assert raw[|stem|] == '.' && raw[..|stem|] == stem && raw[|stem| + 1..] == extension;
  }

  /** The directory names and the file name a package path stands for on the volume. */
  datatype ShortPath = ShortPath(folders: seq<string>, file: ShortName)

  function ShortFolders(segments: seq<string>): (r: seq<string>)
    ensures |r| == |segments|
    ensures forall i | 0 <= i < |r| :: r[i] == NormalizeName(segments[i]).name
  {
    seq(|segments|, i requires 0 <= i < |segments| => NormalizeName(segments[i]).name)
  }

  function ShortPathOf(segments: seq<string>): ShortPath
    requires segments != []
  {
    ShortPath(ShortFolders(segments[..|segments| - 1]), NormalizeFile(segments[|segments| - 1]))
  }
}
