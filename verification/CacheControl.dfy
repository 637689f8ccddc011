/** The Cache-Control header: what its directives say, and what a search of its
    text for a lower-case name makes of them. */
module CacheControl {
  import opened Strings

  /** A header of an upstream response: one line, or several of the same name. */
  datatype HeaderValue = One(line: string) | Several(lines: seq<string>)

  function LinesOf(v: HeaderValue): seq<string> {
    match v
    case One(line) => [line]
    case Several(lines) => lines
  }

  /** `String(value)`. */
  function Text(v: HeaderValue): string {
    Join(LinesOf(v), ',')
  }

  /** One line is itself; two are joined by a comma. */
  lemma TextOfLines(a: string, b: string)
    ensures Text(One(a)) == a
    ensures Text(Several([a, b])) == a + "," + b
  {
    assert [a, b][1..] == [b] && Join([b], ',') == b;
  }

  function Lower(s: string): string {
    seq(|s|, i requires 0 <= i < |s| => if 'A' <= s[i] <= 'Z' then s[i] - 'A' + 'a' else s[i])
  }

  predicate Blank(c: char) { c == ' ' || c == '\t' }

  function Trim(s: string): string
    decreases |s|
  {
    if s == "" then ""
    else if Blank(s[0]) then Trim(s[1..])
    else if Blank(s[|s| - 1]) then Trim(s[..|s| - 1])
    else s
  }

  predicate AllBlank(s: string) { forall i :: 0 <= i < |s| ==> s[i] == ' ' || s[i] == '\t' }

  /** Blanks around a piece, and no more, are dropped. */
  lemma {:induction false} TrimDropsBlanks(a: string, s: string, b: string)
    requires AllBlank(a) && AllBlank(b)
    requires s != "" && !AllBlank([s[0]]) && !AllBlank([s[|s| - 1]])
    ensures Trim(a + s + b) == s
    decreases |a| + |b|
  {
    var whole := a + s + b;
    if a != "" {
      assert whole[0] == a[0] && whole[1..] == a[1..] + s + b;
      TrimDropsBlanks(a[1..], s, b);
    } else if b != "" {
      var n := |b| - 1;
      assert whole[|whole| - 1] == b[n] && whole[..|whole| - 1] == a + s + b[..n];
      assert [s[0]][0] == s[0] && whole[0] == s[0];
      TrimDropsBlanks(a, s, b[..n]);
    } else {
      assert whole == s && [s[0]][0] == s[0] && [s[|s| - 1]][0] == s[|s| - 1];
    }
  }

  /** The line has the directive spelled exactly so. */
  predicate Spells(line: string, directive: string) {
    exists p :: p in Split(line, ',') && Trim(p) == directive
  }

  /** The line has the directive; its name is case-insensitive (section 5.2 of
      RFC 9111). */
  predicate Names(line: string, directive: string) {
    exists p :: p in Split(line, ',') && Lower(Trim(p)) == directive
  }

  lemma {:induction false} IncludesSelf(s: string)
    ensures Includes(s, s)
  {
    assert s <= s;
  }

  lemma {:induction false} IncludesBefore(a: string, b: string, sub: string)
    requires Includes(a, sub)
    ensures Includes(a + b, sub)
  {
    if sub <= a {
      assert sub <= a + b;
    } else {
      IncludesBefore(a[1..], b, sub);
      assert (a + b)[1..] == a[1..] + b;
    }
  }

  lemma {:induction false} TrimIncluded(s: string, sub: string)
    requires Includes(Trim(s), sub)
    ensures Includes(s, sub)
    decreases |s|
  {
    if s != "" {
      if Blank(s[0]) {
        TrimIncluded(s[1..], sub);
      } else if Blank(s[|s| - 1]) {
        TrimIncluded(s[..|s| - 1], sub);
        IncludesBefore(s[..|s| - 1], s[|s| - 1..], sub);
        assert s == s[..|s| - 1] + s[|s| - 1..];
      }
    }
  }

  lemma {:induction false} FirstPiece(s: string, sep: char)
    ensures Split(s, sep)[0] <= s
  {
    if s != "" && s[0] != sep {
      FirstPiece(s[1..], sep);
    }
  }

  lemma {:induction false} PieceIncluded(s: string, sep: char, i: nat, sub: string)
    requires i < |Split(s, sep)| && Includes(Split(s, sep)[i], sub)
    ensures Includes(s, sub)
  {
    if i == 0 {
      FirstPiece(s, sep);
      var p := Split(s, sep)[0];
      IncludesBefore(p, s[|p|..], sub);
      assert s == p + s[|p|..];
    } else {
      PieceIncluded(s[1..], sep, if s[0] == sep then i - 1 else i, sub);
    }
  }

  /** A directive spelled like the text searched for is always found. */
  lemma SpelledIsFound(line: string, directive: string)
    requires Spells(line, directive)
    ensures Includes(line, directive)
  {
    var p :| p in Split(line, ',') && Trim(p) == directive;
    var i :| 0 <= i < |Split(line, ',')| && Split(line, ',')[i] == p;
    IncludesSelf(directive);
    TrimIncluded(p, directive);
    PieceIncluded(line, ',', i, directive);
  }

  /** Text of the same length is included only if it is the same. */
  lemma NotIncluded(s: string, sub: string)
    requires |s| == |sub| && s != sub
    ensures !Includes(s, sub)
  {
    if s != "" {
      TooShort(s[1..], sub);
    }
  }

  lemma {:induction false} TooShort(s: string, sub: string)
    requires |s| < |sub|
    ensures !Includes(s, sub)
  {
    if s != "" {
      TooShort(s[1..], sub);
    }
  }

  /** A line that is one directive, in other letters than searched for, has the
      directive and is not found. */
  lemma OtherLettersMissed(line: string, directive: string)
    requires forall c :: c in line ==> c != ',' && !Blank(c)
    requires Lower(line) == directive && line != directive
    ensures Names(line, directive) && !Spells(line, directive) && !Includes(line, directive)
  {
    SplitWhole(line, ',');
    assert line in Split(line, ',') && Trim(line) == line;
    NotIncluded(line, directive);
  }

  lemma LowerLetters(line: string, directive: string)
    requires |line| == |directive|
    requires forall i :: 0 <= i < |line| ==>
               directive[i] == if 'A' <= line[i] <= 'Z' then line[i] - 'A' + 'a' else line[i]
    ensures Lower(line) == directive
  {
  }

  /** Two such lines. */
  lemma OtherSpellings()
    ensures Names("No-Store", "no-store") && !Includes("No-Store", "no-store")
    ensures Names("No-Cache", "no-cache") && !Includes("No-Cache", "no-cache") && !Includes("No-Cache", "no-store")
  {
    hide Names, Includes, Lower, Spells;
    assert "No-Store"[0] != "no-store"[0] && "No-Cache"[0] != "no-store"[0] && "No-Cache"[0] != "no-cache"[0];
    LowerLetters("No-Store", "no-store");
    LowerLetters("No-Cache", "no-cache");
    OtherLettersMissed("No-Store", "no-store");
    OtherLettersMissed("No-Cache", "no-cache");
    NotIncluded("No-Cache", "no-store");
  }

  lemma NamesItself()
    ensures Names("no-store", "no-store")
  {
    hide Lower;
    LowerLetters("no-store", "no-store");
    SplitWhole("no-store", ',');
    assert "no-store" in Split("no-store", ',') && Trim("no-store") == "no-store";
  }
}
