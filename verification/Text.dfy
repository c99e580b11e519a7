/** strings.Split, strings.Join and strings.Cut on one separator character, and strings.TrimSpace. */
module Text {

  function Split(s: string, sep: char): (parts: seq<string>)
    ensures |parts| >= 1
  {
    if s == "" then [""]
    else
      var rest := Split(s[1..], sep);
      if s[0] == sep then [""] + rest else [[s[0]] + rest[0]] + rest[1..]
  }

  function Join(parts: seq<string>, sep: char): string {
    if parts == [] then ""
    else if |parts| == 1 then parts[0]
    else parts[0] + [sep] + Join(parts[1..], sep)
  }

  /** strings.Cut: the text before and after the first separator, and whether there is one. */
  function Cut(s: string, sep: char): (string, string, bool) {
    if s == "" then ("", "", false)
    else if s[0] == sep then ("", s[1..], true)
    else
      var (before, after, found) := Cut(s[1..], sep);
      ([s[0]] + before, after, found)
  }

  lemma {:induction false} JoinOfSplit(s: string, sep: char)
    ensures Join(Split(s, sep), sep) == s
    ensures forall p | p in Split(s, sep) :: sep !in p
  {
    if s != "" {
      JoinOfSplit(s[1..], sep);
      var rest := Split(s[1..], sep);
      assert s == [s[0]] + s[1..];
      if s[0] == sep {
        assert ([""] + rest)[1..] == rest;
      } else {
        var all := [[s[0]] + rest[0]] + rest[1..];
        assert all[1..] == rest[1..];
        assert forall p | p in rest[1..] :: p in rest;
      }
    }
  }

  lemma {:induction false} SplitWithout(s: string, sep: char)
    requires sep !in s
    ensures Split(s, sep) == [s]
  {
    if s != "" {
      assert forall c | c in s[1..] :: c in s;
      SplitWithout(s[1..], sep);
      assert s == [s[0]] + s[1..];
    }
  }

  lemma {:induction false} SplitPrefixed(head: string, tail: string, sep: char)
    requires sep !in head
    ensures Split(head + [sep] + tail, sep) == [head] + Split(tail, sep)
  {
    var s := head + [sep] + tail;
    if head == "" {
      assert s[1..] == tail;
    } else {
      assert s[1..] == head[1..] + [sep] + tail;
      assert forall c | c in head[1..] :: c in head;
      SplitPrefixed(head[1..], tail, sep);
      assert head == [head[0]] + head[1..];
    }
  }

  lemma {:induction false} SplitOfJoin(parts: seq<string>, sep: char)
    requires parts != [] && forall p | p in parts :: sep !in p
    ensures Split(Join(parts, sep), sep) == parts
  {
    if |parts| == 1 {
      SplitWithout(parts[0], sep);
    } else {
      assert forall p | p in parts[1..] :: p in parts;
      SplitOfJoin(parts[1..], sep);
      SplitPrefixed(parts[0], Join(parts[1..], sep), sep);
      assert parts == [parts[0]] + parts[1..];
    }
  }

  lemma {:induction false} CutParts(s: string, sep: char)
    ensures var (before, after, found) := Cut(s, sep);
            && sep !in before
            && (found ==> s == before + [sep] + after)
            && (!found ==> s == before && after == "")
  {
    if s != "" && s[0] != sep {
      CutParts(s[1..], sep);
    }
    if s != "" {
      assert s == [s[0]] + s[1..];
    }
  }

  lemma {:induction false} CutPrefixed(before: string, after: string, sep: char)
    requires sep !in before
    ensures Cut(before + [sep] + after, sep) == (before, after, true)
  {
    var s := before + [sep] + after;
    if before == "" {
      assert s[1..] == after;
    } else {
      assert s[1..] == before[1..] + [sep] + after;
      assert forall c | c in before[1..] :: c in before;
      CutPrefixed(before[1..], after, sep);
      assert before == [before[0]] + before[1..];
    }
  }

  lemma {:induction false} CutWithout(s: string, sep: char)
    requires sep !in s
    ensures Cut(s, sep) == (s, "", false)
  {
    if s != "" {
      assert forall c | c in s[1..] :: c in s;
      CutWithout(s[1..], sep);
      assert s == [s[0]] + s[1..];
    }
  }

  // ----- white space -----

  /** The UTF-8 text of one rune that unicode.IsSpace accepts. */
  predicate IsSpace(rune: string) {
    if |rune| == 1 then '\t' <= rune[0] <= '\r' || rune[0] == ' '
    else if |rune| == 2 then rune[0] == 0xC2 as char && rune[1] as int in {0x85, 0xA0}
    else if |rune| == 3 then
      match rune[0] as int
      case 0xE1 => rune[1] as int == 0x9A && rune[2] as int == 0x80
      case 0xE2 =>
        || (rune[1] as int == 0x80 && (0x80 <= rune[2] as int <= 0x8A || rune[2] as int in {0xA8, 0xA9, 0xAF}))
        || (rune[1] as int == 0x81 && rune[2] as int == 0x9F)
      case 0xE3 => rune[1] as int == 0x80 && rune[2] as int == 0x80
      case _ => false
    else false
  }

  /** The width of the space s begins with, or 0. */
  function LeadingSpace(s: string): (width: nat)
    ensures width <= |s|
  {
    if 1 <= |s| && IsSpace(s[..1]) then 1
    else if 2 <= |s| && IsSpace(s[..2]) then 2
    else if 3 <= |s| && IsSpace(s[..3]) then 3
    else 0
  }

  /** The width of the space s ends with, or 0. */
  function TrailingSpace(s: string): (width: nat)
    ensures width <= |s|
  {
    if 1 <= |s| && IsSpace(s[|s| - 1..]) then 1
    else if 2 <= |s| && IsSpace(s[|s| - 2..]) then 2
    else if 3 <= |s| && IsSpace(s[|s| - 3..]) then 3
    else 0
  }

  function TrimSpace(s: string): string {
    if LeadingSpace(s) > 0 then TrimSpace(s[LeadingSpace(s)..])
    else if TrailingSpace(s) > 0 then TrimSpace(s[..|s| - TrailingSpace(s)])
    else s
  }

  /** ASCII characters that are no space. */
  predicate Visible(c: char) {
    '!' <= c <= '~'
  }

  lemma NoSpaceRune(rune: string)
    requires rune != "" && Visible(rune[0])
    ensures !IsSpace(rune)
  {
  }

  lemma TrimSpaceClean(s: string)
    requires forall c | c in s :: Visible(c)
    ensures TrimSpace(s) == s
  {
    hide IsSpace, Visible;
    forall w | 0 < w <= |s| ensures !IsSpace(s[..w]) && !IsSpace(s[|s| - w..]) {
      assert s[..w][0] == s[0] && s[0] in s && s[|s| - w..][0] == s[|s| - w] && s[|s| - w] in s;
      NoSpaceRune(s[..w]);
      NoSpaceRune(s[|s| - w..]);
    }
  }
}
