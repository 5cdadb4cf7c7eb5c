/** The Python string operations the simfile rewrite uses: `startswith`, `', '.join`
    and the whitespace `split` of a data row. */
module Text {

  predicate StartsWith(s: string, prefix: string) {
    |prefix| <= |s| && s[..|prefix|] == prefix
  }

  /** `', '.join(parts)`. */
  function JoinComma(parts: seq<string>): string {
    if parts == [] then ""
    else if |parts| == 1 then parts[0]
    else parts[0] + ", " + JoinComma(parts[1..])
  }

  /** Reads a comma-separated list back: splits at each ',' and drops one blank after it. */
  function SplitComma(s: string): seq<string>
    decreases |s|
  {
    if ',' !in s then [s]
    else
      var i := IndexOf(s, ',');
      var rest := s[i + 1..];
      [s[..i]] + SplitComma(if rest != [] && rest[0] == ' ' then rest[1..] else rest)
  }

  function IndexOf(s: string, c: char): (i: nat)
    requires c in s
    ensures i < |s| && s[i] == c && c !in s[..i]
  {
    if s[0] == c then 0 else 1 + IndexOf(s[1..], c)
  }

  /** Reading past one comma-free entry and its separator. */
  lemma SplitCommaStep(p: string, tail: string)
    requires ',' !in p
    ensures SplitComma(p + ", " + tail) == [p] + SplitComma(tail)
  {
    var s := p + ", " + tail;
    assert s[|p|] == ',';
    assert s[..|p|] == p;
    assert IndexOf(s, ',') == |p|;
    assert s[|p| + 1..] == " " + tail;
    assert (" " + tail)[1..] == tail;
  }

  /** A non-empty list of entries that contain no comma is read back exactly as written. */
  lemma {:induction false} SplitJoinComma(parts: seq<string>)
    requires |parts| >= 1
    requires forall k :: 0 <= k < |parts| ==> ',' !in parts[k]
    ensures SplitComma(JoinComma(parts)) == parts
  {
    if |parts| > 1 {
      SplitCommaStep(parts[0], JoinComma(parts[1..]));
      SplitJoinComma(parts[1..]);
      assert parts == [parts[0]] + parts[1..];
    }
  }

  /** The characters Python's `str.split()` treats as whitespace, restricted to ASCII. */
  predicate IsSpace(c: char) {
    9 <= c as int <= 13 || 28 <= c as int <= 32
  }

  predicate IsWord(w: string) {
    |w| > 0 && forall i :: 0 <= i < |w| ==> !IsSpace(w[i])
  }

  /** The longest prefix of `s` without whitespace. */
  function LeadingWord(s: string): (w: string)
    ensures |w| <= |s| && w == s[..|w|]
    ensures forall i :: 0 <= i < |w| ==> !IsSpace(w[i])
    ensures |w| < |s| ==> IsSpace(s[|w|])
  {
    if s == [] || IsSpace(s[0]) then [] else [s[0]] + LeadingWord(s[1..])
  }

  /** `line.split()` (and `line.rsplit()`): the maximal runs of non-whitespace, in order. */
  function Tokens(s: string): (ts: seq<string>)
    ensures forall k :: 0 <= k < |ts| ==> IsWord(ts[k])
    decreases |s|
  {
    if s == [] then []
    else if IsSpace(s[0]) then Tokens(s[1..])
    else
      var w := LeadingWord(s);
      [w] + Tokens(s[|w|..])
  }

  lemma LeadingWordOf(w: string, rest: string)
    requires IsWord(w)
    requires rest == [] || IsSpace(rest[0])
    ensures LeadingWord(w + rest) == w
    decreases |w|
  {
    if |w| > 1 {
      assert (w + rest)[1..] == w[1..] + rest;
      LeadingWordOf(w[1..], rest);
    } else {
      assert (w + rest)[1..] == rest;
    }
  }

  /** A run of whitespace only (possibly empty). */
  predicate IsBlank(s: string) {
    forall i :: 0 <= i < |s| ==> IsSpace(s[i])
  }

  /** Fields written one after another, `seps[k]` between `fields[k]` and `fields[k + 1]`. */
  function Interleave(fields: seq<string>, seps: seq<string>): string
    requires |seps| + 1 == |fields| || (fields == [] && seps == [])
  {
    if |fields| <= 1 then (if fields == [] then "" else fields[0])
    else fields[0] + seps[0] + Interleave(fields[1..], seps[1..])
  }

  /** Leading whitespace is skipped. */
  lemma {:induction false} TokensSkipBlank(b: string, s: string)
    requires IsBlank(b)
    ensures Tokens(b + s) == Tokens(s)
    decreases |b|
  {
    if b != [] {
      assert (b + s)[1..] == b[1..] + s;
      TokensSkipBlank(b[1..], s);
    } else {
      assert b + s == s;
    }
  }

  lemma TokensBlank(b: string)
    requires IsBlank(b)
    ensures Tokens(b) == []
  {
    TokensSkipBlank(b, []);
    assert b + [] == b;
  }

  /** A word followed by whitespace (or nothing) is read as one field. */
  lemma TokensWordThen(w: string, rest: string)
    requires IsWord(w)
    requires rest == [] || IsSpace(rest[0])
    ensures Tokens(w + rest) == [w] + Tokens(rest)
  {
    LeadingWordOf(w, rest);
    assert (w + rest)[|w|..] == rest;
  }

  lemma ConcatAssoc(a: string, b: string, c: string)
    ensures (a + b) + c == a + (b + c)
  {
  }

  lemma InterleaveCons(fields: seq<string>, seps: seq<string>, trail: string)
    requires |fields| > 1 && |seps| + 1 == |fields|
    ensures Interleave(fields, seps) + trail
      == fields[0] + (seps[0] + (Interleave(fields[1..], seps[1..]) + trail))
  {
    var w, sep, x := fields[0], seps[0], Interleave(fields[1..], seps[1..]);
    assert Interleave(fields, seps) == (w + sep) + x;
    ConcatAssoc(w + sep, x, trail);
    ConcatAssoc(w, sep, x + trail);
  }

  lemma {:induction false} TokensInterleaveTrail(fields: seq<string>, seps: seq<string>, trail: string)
    requires |seps| + 1 == |fields| || (fields == [] && seps == [])
    requires forall k :: 0 <= k < |fields| ==> IsWord(fields[k])
    requires forall k :: 0 <= k < |seps| ==> seps[k] != [] && IsBlank(seps[k])
    requires IsBlank(trail)
    ensures Tokens(Interleave(fields, seps) + trail) == fields
  {
    if fields == [] {
      TokensBlank(trail);
      assert Interleave(fields, seps) + trail == trail;
    } else if |fields| == 1 {
      TokensWordThen(fields[0], trail);
      TokensBlank(trail);
      assert Interleave(fields, seps) + trail == fields[0] + trail;
    } else {
      var w, sep := fields[0], seps[0];
      var fs, ss := fields[1..], seps[1..];
      assert forall k :: 0 <= k < |fs| ==> IsWord(fs[k]) by {
        forall k | 0 <= k < |fs| ensures IsWord(fs[k]) { assert fs[k] == fields[k + 1]; }
      }
      assert forall k :: 0 <= k < |ss| ==> ss[k] != [] && IsBlank(ss[k]) by {
        forall k | 0 <= k < |ss| ensures ss[k] != [] && IsBlank(ss[k]) { assert ss[k] == seps[k + 1]; }
      }
      var rest := Interleave(fs, ss) + trail;
      InterleaveCons(fields, seps, trail);
      TokensWordThen(w, sep + rest);
      TokensSkipBlank(sep, rest);
      TokensInterleaveTrail(fs, ss, trail);
      assert fields == [w] + fs;
    }
  }

  /** `split()` returns the maximal non-whitespace runs of a line, in order: a line made of
      optional leading whitespace, words separated by non-empty runs of whitespace and
      optional trailing whitespace splits into exactly those words. */
  lemma Tokenized(lead: string, fields: seq<string>, seps: seq<string>, trail: string)
    requires |seps| + 1 == |fields| || (fields == [] && seps == [])
    requires forall k :: 0 <= k < |fields| ==> IsWord(fields[k])
    requires forall k :: 0 <= k < |seps| ==> seps[k] != [] && IsBlank(seps[k])
    requires IsBlank(lead) && IsBlank(trail)
    ensures Tokens(lead + Interleave(fields, seps) + trail) == fields
  {
    assert lead + Interleave(fields, seps) + trail == lead + (Interleave(fields, seps) + trail);
    TokensSkipBlank(lead, Interleave(fields, seps) + trail);
    TokensInterleaveTrail(fields, seps, trail);
  }

  /** Fields written one after another, separated by tabs, as the csv writer's delimiter does. */
  function JoinTab(fields: seq<string>): string {
    Interleave(fields, seq(if fields == [] then 0 else |fields| - 1, _ => "\t"))
  }

  /** Splitting a tab-separated row of whitespace-free, non-empty fields gives back the fields. */
  lemma TokensJoinTab(fields: seq<string>)
    requires forall k :: 0 <= k < |fields| ==> IsWord(fields[k])
    ensures Tokens(JoinTab(fields)) == fields
  {
    var seps := seq(if fields == [] then 0 else |fields| - 1, _ => "\t");
    forall k | 0 <= k < |seps| ensures seps[k] != [] && IsBlank(seps[k]) {
      assert seps[k] == "\t";
    }
    Tokenized("", fields, seps, "");
    assert "" + JoinTab(fields) + "" == JoinTab(fields);
  }
}
