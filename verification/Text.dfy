/** The few JavaScript string operations that the cron parser and the path utilities use. */
module Text {

  /** White space and line terminators, as `String.prototype.trim` and `\s` see them. */
  predicate IsSpace(c: char) {
    || '\t' <= c <= '\r' || c == ' ' || c == '\U{00A0}' || c == '\U{1680}'
    || '\U{2000}' <= c <= '\U{200A}' || c == '\U{2028}' || c == '\U{2029}'
    || c == '\U{202F}' || c == '\U{205F}' || c == '\U{3000}' || c == '\U{FEFF}'
  }

  predicate NoSpaces(s: string) {
    forall i :: 0 <= i < |s| ==> !IsSpace(s[i])
  }

  function TrimStart(s: string): string {
    if s != "" && IsSpace(s[0]) then TrimStart(s[1..]) else s
  }

  function TrimEnd(s: string): string {
    if s != "" && IsSpace(s[|s| - 1]) then TrimEnd(s[..|s| - 1]) else s
  }

  function Trim(s: string): string {
    TrimEnd(TrimStart(s))
  }

  /** Neither end of `s` is a space. */
  predicate Trimmed(s: string) {
    s == "" || (!IsSpace(s[0]) && !IsSpace(s[|s| - 1]))
  }

  lemma {:induction false} TrimEndKeepsStart(s: string)
    requires s == "" || !IsSpace(s[0])
    ensures Trimmed(TrimEnd(s))
  {
    if s != "" && IsSpace(s[|s| - 1]) {
      TrimEndKeepsStart(s[..|s| - 1]);
    }
  }

  lemma {:induction false} TrimStartStops(s: string)
    ensures TrimStart(s) == "" || !IsSpace(TrimStart(s)[0])
  {
    if s != "" && IsSpace(s[0]) {
      TrimStartStops(s[1..]);
    }
  }

  /** Trimming leaves no space at either end, so trimming again changes nothing. */
  lemma TrimIdempotent(s: string)
    ensures Trimmed(Trim(s))
    ensures Trim(Trim(s)) == Trim(s)
  {
    TrimStartStops(s);
    TrimEndKeepsStart(TrimStart(s));
  }

  predicate AllSpaces(s: string) {
    forall i :: 0 <= i < |s| ==> IsSpace(s[i])
  }

  /** `t` is what is left of `s` without the spaces at its ends. */
  ghost predicate TrimmedTo(s: string, t: string) {
    Trimmed(t) && exists a: string, b: string :: AllSpaces(a) && AllSpaces(b) && s == a + t + b
  }

  lemma {:induction false} TrimStartDrops(a: string, s: string)
    requires AllSpaces(a)
    ensures TrimStart(a + s) == TrimStart(s)
  {
    if a == "" {
      assert a + s == s;
    } else {
      assert (a + s)[1..] == a[1..] + s;
      TrimStartDrops(a[1..], s);
    }
  }

  lemma {:induction false} TrimEndDrops(s: string, b: string)
    requires AllSpaces(b)
    ensures TrimEnd(s + b) == TrimEnd(s)
  {
    if b == "" {
      assert s + b == s;
    } else {
      var n := |b| - 1;
      assert (s + b)[..|s + b| - 1] == s + b[..n];
      TrimEndDrops(s, b[..n]);
    }
  }

  lemma {:induction false} TrimStartCuts(s: string) returns (a: string)
    ensures AllSpaces(a) && s == a + TrimStart(s)
  {
    if s != "" && IsSpace(s[0]) {
      a := TrimStartCuts(s[1..]);
      a := [s[0]] + a;
    } else {
      a := "";
    }
  }

  lemma {:induction false} TrimEndCuts(s: string) returns (b: string)
    ensures AllSpaces(b) && s == TrimEnd(s) + b
  {
    if s != "" && IsSpace(s[|s| - 1]) {
      b := TrimEndCuts(s[..|s| - 1]);
      b := b + [s[|s| - 1]];
    } else {
      b := "";
    }
  }

  /** Trimming cuts off the spaces at both ends, and nothing else. */
  lemma TrimMeaning(s: string, t: string)
    ensures TrimmedTo(s, t) <==> t == Trim(s)
  {
    if TrimmedTo(s, t) {
      var a, b :| AllSpaces(a) && AllSpaces(b) && s == a + t + b;
      assert s == a + (t + b);
      TrimStartDrops(a, t + b);
      if t == "" {
        assert t + b == b + "";
        TrimStartDrops(b, "");
      } else {
        assert TrimStart(t + b) == t + b;
        TrimEndDrops(t, b);
      }
    }
    TrimIdempotent(s);
    var a := TrimStartCuts(s);
    var b := TrimEndCuts(TrimStart(s));
    assert s == a + Trim(s) + b;
  }

  lemma TrimEmptyIff(s: string)
    ensures Trim(s) == "" <==> AllSpaces(s)
  {
    TrimMeaning(s, "");
    if AllSpaces(s) {
      assert AllSpaces("") && s == s + "" + "";
    }
    if Trim(s) == "" {
      var a, b :| AllSpaces(a) && AllSpaces(b) && s == a + "" + b;
      assert s == a + b;
    }
  }

  function Split(s: string, sep: char): (parts: seq<string>)
    ensures |parts| >= 1
  {
    if s == "" then [""]
    else if s[0] == sep then [""] + Split(s[1..], sep)
    else
      var rest := Split(s[1..], sep);
      [[s[0]] + rest[0]] + rest[1..]
  }

  function Join(parts: seq<string>, sep: char): string {
    if parts == [] then ""
    else if |parts| == 1 then parts[0]
    else parts[0] + [sep] + Join(parts[1..], sep)
  }

  lemma {:induction false} SplitWithout(s: string, sep: char)
    requires sep !in s
    ensures Split(s, sep) == [s]
  {
    if s != "" {
      SplitWithout(s[1..], sep);
      assert [s[0]] + s[1..] == s;
    }
  }

  lemma {:induction false} SplitFirst(head: string, tail: string, sep: char)
    requires sep !in head
    ensures Split(head + [sep] + tail, sep) == [head] + Split(tail, sep)
  {
    var s := head + [sep] + tail;
    if head == "" {
      assert s[1..] == tail;
    } else {
      assert s[1..] == head[1..] + [sep] + tail;
      SplitFirst(head[1..], tail, sep);
      assert [head[0]] + head[1..] == head;
    }
  }

  /** Splitting undoes joining when no part holds the separator. */
  lemma {:induction false} SplitJoin(parts: seq<string>, sep: char)
    requires parts != []
    requires forall i :: 0 <= i < |parts| ==> sep !in parts[i]
    ensures Split(Join(parts, sep), sep) == parts
  {
    if |parts| == 1 {
      SplitWithout(parts[0], sep);
    } else {
      SplitFirst(parts[0], Join(parts[1..], sep), sep);
      SplitJoin(parts[1..], sep);
    }
  }

  lemma JoinLonger(c: char, parts: seq<string>, sep: char)
    requires parts != []
    ensures Join([[c] + parts[0]] + parts[1..], sep) == [c] + Join(parts, sep)
  {
    var longer := [[c] + parts[0]] + parts[1..];
    assert longer[1..] == parts[1..];
    if |parts| > 1 {
      assert [c] + parts[0] + [sep] + Join(parts[1..], sep) == [c] + (parts[0] + [sep] + Join(parts[1..], sep));
    }
  }

  /** No part of a split holds the separator, and joining undoes splitting. */
  lemma {:induction false} JoinSplit(s: string, sep: char)
    ensures Join(Split(s, sep), sep) == s
    ensures forall i :: 0 <= i < |Split(s, sep)| ==> sep !in Split(s, sep)[i]
  {
    if s != "" {
      JoinSplit(s[1..], sep);
      var rest := Split(s[1..], sep);
      assert s == [s[0]] + s[1..];
      if s[0] == sep {
        assert ([""] + rest)[1..] == rest;
      } else {
        JoinLonger(s[0], rest, sep);
      }
    }
  }

  // ----- collapsing runs of white space -----

  /** `s.replace(/\s+/g, ' ')` */
  function Collapse(s: string): string {
    if s == "" then ""
    else if !IsSpace(s[0]) then [s[0]] + Collapse(s[1..])
    else if |s| > 1 && IsSpace(s[1]) then Collapse(s[1..])
    else " " + Collapse(s[1..])
  }

  function Normalize(s: string): string {
    Collapse(Trim(s))
  }

  /** Every space is a single blank between two other characters. */
  predicate SingleSpaced(s: string) {
    && (forall i :: 0 <= i < |s| && IsSpace(s[i]) ==> s[i] == ' ')
    && (forall i :: 0 <= i < |s| - 1 && IsSpace(s[i]) ==> !IsSpace(s[i + 1]))
  }

  lemma {:induction false} CollapseIsSingleSpaced(s: string)
    ensures SingleSpaced(Collapse(s))
    ensures s != "" ==> Collapse(s) != "" && IsSpace(Collapse(s)[0]) == IsSpace(s[0])
    ensures s != "" ==> IsSpace(Collapse(s)[|Collapse(s)| - 1]) == IsSpace(s[|s| - 1])
  {
    if s != "" {
      CollapseIsSingleSpaced(s[1..]);
    }
  }

  lemma {:induction false} CollapseSingleSpaced(s: string)
    requires SingleSpaced(s)
    ensures Collapse(s) == s
  {
    if s != "" {
      CollapseSingleSpaced(s[1..]);
      if IsSpace(s[0]) && |s| > 1 {
        assert !IsSpace(s[0 + 1]);
      }
      assert s == [s[0]] + s[1..];
    }
  }

  /** Normalising is idempotent, and does not see spaces already trimmed away. */
  lemma NormalizeIdempotent(s: string)
    ensures Normalize(Normalize(s)) == Normalize(s)
    ensures Normalize(Trim(s)) == Normalize(s)
    ensures Trimmed(Normalize(s)) && SingleSpaced(Normalize(s))
  {
    TrimIdempotent(s);
    CollapseIsSingleSpaced(Trim(s));
    CollapseSingleSpaced(Normalize(s));
  }

  // ----- words -----

  predicate IsWord(s: string) {
    s != "" && NoSpaces(s)
  }

  predicate AllWords(words: seq<string>) {
    forall i :: 0 <= i < |words| ==> IsWord(words[i])
  }

  /** Spaces around and between words; between two words there is at least one. */
  predicate AreGaps(gaps: seq<string>) {
    && (forall i :: 0 <= i < |gaps| ==> AllSpaces(gaps[i]))
    && (forall i :: 0 < i < |gaps| - 1 ==> gaps[i] != "")
  }

  /** Words, each behind its gap, and the last gap at the end. */
  function Spread(gaps: seq<string>, words: seq<string>): string
    requires |gaps| == |words| + 1
  {
    if words == [] then gaps[0] else gaps[0] + words[0] + Spread(gaps[1..], words[1..])
  }

  lemma {:induction false} CollapseWord(word: string, rest: string)
    requires NoSpaces(word)
    ensures Collapse(word + rest) == word + Collapse(rest)
  {
    if word == "" {
      assert word + rest == rest && word + Collapse(rest) == Collapse(rest);
    } else {
      assert (word + rest)[1..] == word[1..] + rest;
      CollapseWord(word[1..], rest);
    }
  }

  lemma {:induction false} CollapseGap(gap: string, rest: string)
    requires gap != "" && AllSpaces(gap) && rest != "" && !IsSpace(rest[0])
    ensures Collapse(gap + rest) == " " + Collapse(rest)
  {
    var s := gap + rest;
    if |gap| == 1 {
      assert s[1..] == rest;
    } else {
      assert s[1..] == gap[1..] + rest;
      CollapseGap(gap[1..], rest);
    }
  }

  /** From a word to a word, without outer gaps. */
  predicate Inner(gaps: seq<string>, words: seq<string>) {
    && |gaps| == |words| + 1 && words != [] && AllWords(words) && AreGaps(gaps)
    && gaps[0] == "" && gaps[|words|] == ""
  }

  lemma SpreadFrom(gaps: seq<string>, words: seq<string>, gap: string)
    requires |gaps| == |words| + 1
    ensures Spread([gap] + gaps[1..], words) ==
            if words == [] then gap else gap + words[0] + Spread(gaps[1..], words[1..])
  {
    assert ([gap] + gaps[1..])[1..] == gaps[1..];
  }

  lemma SpreadHead(gaps: seq<string>, words: seq<string>)
    requires |gaps| == |words| + 1 && words != []
    ensures Spread(gaps, words) == gaps[0] + Spread([""] + gaps[1..], words)
  {
    SpreadFrom(gaps, words, "");
    Regroup(gaps[0], words[0], Spread(gaps[1..], words[1..]));
  }

  lemma Regroup(a: string, b: string, c: string)
    ensures a + b + c == a + (b + c)
    ensures "" + b + c == b + c
  {
  }

  lemma InnerRest(gaps: seq<string>, words: seq<string>)
    requires Inner(gaps, words) && |words| > 1
    ensures Inner([""] + gaps[2..], words[1..]) && gaps[1] != "" && AllSpaces(gaps[1])
  {
    var rest := [""] + gaps[2..];
    assert forall i :: 0 < i < |rest| ==> rest[i] == gaps[i + 1];
  }

  lemma SpreadPeel(gaps: seq<string>, words: seq<string>)
    requires Inner(gaps, words) && |words| > 1
    ensures |[""] + gaps[2..]| == |words[1..]| + 1
    ensures Spread(gaps, words) == words[0] + (gaps[1] + Spread([""] + gaps[2..], words[1..]))
  {
    assert |gaps[1..]| == |words[1..]| + 1 && gaps[1..][1..] == gaps[2..];
    SpreadHead(gaps[1..], words[1..]);
    var tail := Spread([""] + gaps[2..], words[1..]);
    assert Spread(gaps[1..], words[1..]) == gaps[1] + tail;
    assert Spread(gaps, words) == "" + words[0] + (gaps[1] + tail);
  }

  lemma CollapseTwo(word: string, gap: string, tail: string)
    requires IsWord(word) && gap != "" && AllSpaces(gap)
    requires tail != "" && !IsSpace(tail[0]) && !IsSpace(tail[|tail| - 1])
    ensures Collapse(word + (gap + tail)) == word + [' '] + Collapse(tail)
    ensures var s := word + (gap + tail); s != "" && !IsSpace(s[0]) && !IsSpace(s[|s| - 1])
  {
    CollapseWord(word, gap + tail);
    CollapseGap(gap, tail);
  }

  lemma {:induction false} CollapseSpread(gaps: seq<string>, words: seq<string>)
    requires Inner(gaps, words)
    ensures Collapse(Spread(gaps, words)) == Join(words, ' ')
    ensures var s := Spread(gaps, words); s != "" && !IsSpace(s[0]) && !IsSpace(s[|s| - 1])
    decreases |words|
  {
    if |words| == 1 {
      assert Spread(gaps, words) == words[0] + "";
      CollapseWord(words[0], "");
    } else {
      var tail := Spread([""] + gaps[2..], words[1..]);
      InnerRest(gaps, words);
      CollapseSpread([""] + gaps[2..], words[1..]);
      SpreadPeel(gaps, words);
      CollapseTwo(words[0], gaps[1], tail);
    }
  }

  lemma {:induction false} SpreadTail(gaps: seq<string>, words: seq<string>)
    requires |gaps| == |words| + 1
    ensures Spread(gaps, words) == Spread(gaps[..|words|] + [""], words) + gaps[|words|]
    decreases |words|
  {
    var cut := gaps[..|words|] + [""];
    if words == [] {
      assert cut == [""];
    } else {
      SpreadTail(gaps[1..], words[1..]);
      assert cut[1..] == gaps[1..][..|words| - 1] + [""];
      assert cut[0] == gaps[0];
    }
  }

  /** The gaps without the first and the last one. */
  function WithoutOuter(gaps: seq<string>): seq<string>
    requires |gaps| >= 2
  {
    [""] + (gaps[..|gaps| - 1] + [""])[1..]
  }

  lemma WithoutOuterIsInner(gaps: seq<string>, words: seq<string>)
    requires |gaps| == |words| + 1 && words != [] && AllWords(words) && AreGaps(gaps)
    ensures Inner(WithoutOuter(gaps), words)
  {
  }

  lemma SpreadEnds(gaps: seq<string>, words: seq<string>)
    requires |gaps| == |words| + 1 && words != []
    ensures Spread(gaps, words) == gaps[0] + Spread(WithoutOuter(gaps), words) + gaps[|words|]
  {
    SpreadTail(gaps, words);
    SpreadHead(gaps[..|words|] + [""], words);
  }

  lemma NormalizeCore(a: string, core: string, b: string)
    requires AllSpaces(a) && AllSpaces(b) && Trimmed(core)
    ensures Normalize(a + core + b) == Collapse(core)
  {
    TrimMeaning(a + core + b, core);
  }

  /** Normalising leaves the words of a text, with one blank between two of them. */
  lemma NormalizeMeaning(gaps: seq<string>, words: seq<string>)
    requires |gaps| == |words| + 1 && AllWords(words) && AreGaps(gaps)
    ensures Normalize(Spread(gaps, words)) == Join(words, ' ')
  {
    if words == [] {
      TrimEmptyIff(gaps[0]);
    } else {
      WithoutOuterIsInner(gaps, words);
      SpreadEnds(gaps, words);
      CollapseSpread(WithoutOuter(gaps), words);
      NormalizeCore(gaps[0], Spread(WithoutOuter(gaps), words), gaps[|words|]);
    }
  }

  lemma SpreadMore(gap: string, word: string, gaps: seq<string>, words: seq<string>)
    requires |gaps| == |words| + 1
    ensures Spread([gap] + gaps, [word] + words) == gap + word + Spread(gaps, words)
  {
    assert ([gap] + gaps)[1..] == gaps && ([word] + words)[1..] == words;
  }

  /** Every text is made of words and gaps. */
  lemma {:induction false} HasWords(s: string) returns (gaps: seq<string>, words: seq<string>)
    ensures |gaps| == |words| + 1 && AllWords(words) && AreGaps(gaps) && Spread(gaps, words) == s
  {
    if s == "" {
      gaps, words := [""], [];
    } else {
      gaps, words := HasWords(s[1..]);
      assert s == [s[0]] + s[1..];
      if IsSpace(s[0]) {
        SpreadFrom(gaps, words, [s[0]] + gaps[0]);
        gaps := [[s[0]] + gaps[0]] + gaps[1..];
      } else if words != [] && gaps[0] == "" {
        var word := [s[0]] + words[0];
        SpreadMore("", word, gaps[1..], words[1..]);
        gaps, words := [""] + gaps[1..], [word] + words[1..];
      } else {
        SpreadMore("", [s[0]], gaps, words);
        gaps, words := [""] + gaps, [[s[0]]] + words;
      }
    }
  }

  // ----- decimal numbers -----

  predicate IsDigit(c: char) { '0' <= c <= '9' }

  predicate AllDigits(s: string) {
    forall i :: 0 <= i < |s| ==> IsDigit(s[i])
  }

  /** `Number(s)` for a string of decimal digits; the empty string counts as 0. */
  function ParseDigits(s: string): nat
    requires AllDigits(s)
  {
    if s == "" then 0
    else 10 * ParseDigits(s[..|s| - 1]) + (s[|s| - 1] as int - '0' as int)
  }

  function ToDigits(n: nat): string {
    var last := [('0' as int + n % 10) as char];
    if n < 10 then last else ToDigits(n / 10) + last
  }

  lemma {:induction false} ParseToDigits(n: nat)
    ensures AllDigits(ToDigits(n)) && ToDigits(n) != ""
    ensures ParseDigits(ToDigits(n)) == n
  {
    var s := ToDigits(n);
    if n >= 10 {
      ParseToDigits(n / 10);
      assert s[..|s| - 1] == ToDigits(n / 10);
    } else {
      assert s[..0] == "";
    }
  }

  function Zeros(k: nat): string {
    seq(k, _ => '0')
  }

  /** A digit string is zeros and the decimal form of its value, which is left out when it is 0. */
  lemma {:induction false} DigitsMeaning(s: string) returns (k: nat)
    requires AllDigits(s)
    ensures s == Zeros(k) + if ParseDigits(s) == 0 then "" else ToDigits(ParseDigits(s))
  {
    if s == "" {
      k := 0;
    } else {
      var before, last := s[..|s| - 1], s[|s| - 1];
      assert s == before + [last];
      k := DigitsMeaning(before);
      if ParseDigits(s) == 0 {
        assert before == Zeros(k) && Zeros(k) + ['0'] == Zeros(k + 1);
        k := k + 1;
      } else if ParseDigits(before) == 0 {
        assert ToDigits(ParseDigits(s)) == [last];
      } else {
        assert ToDigits(ParseDigits(s)) == ToDigits(ParseDigits(before)) + [last];
      }
    }
  }
}
