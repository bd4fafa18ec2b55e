/** The Go string functions the migrator relies on, over sequences of characters. */
module Text {

  /** unicode.IsSpace. */
  predicate IsSpace(c: char) {
    || c == ' ' || '\t' <= c <= '\r' || c == '\U{0085}' || c == '\U{00A0}' || c == '\U{1680}'
    || '\U{2000}' <= c <= '\U{200A}' || c == '\U{2028}' || c == '\U{2029}' || c == '\U{202F}'
    || c == '\U{205F}' || c == '\U{3000}'
  }

  /** Non-empty and free of white space: what strings.Fields returns. */
  predicate IsWord(s: string) {
    s != "" && forall i :: 0 <= i < |s| ==> !IsSpace(s[i])
  }

  predicate HasPrefix(s: string, prefix: string) {
    prefix <= s
  }

  function TrimLeftSpace(s: string): (r: string)
    ensures |r| <= |s| && r == s[|s| - |r|..]
    ensures r != "" ==> !IsSpace(r[0])
  {
    if s != "" && IsSpace(s[0]) then TrimLeftSpace(s[1..]) else s
  }

  function TrimRightSpace(s: string): (r: string)
    ensures r <= s
    ensures r != "" ==> !IsSpace(r[|r| - 1])
  {
    if s != "" && IsSpace(s[|s| - 1]) then TrimRightSpace(s[..|s| - 1]) else s
  }

  function TrimSpace(s: string): string {
    TrimRightSpace(TrimLeftSpace(s))
  }

  /** strings.ToLower, for the letters A to Z. */
  function ToLower(s: string): string {
    seq(|s|, i requires 0 <= i < |s| => if 'A' <= s[i] <= 'Z' then (s[i] as int + 32) as char else s[i])
  }

  lemma LowerAlphabet()
    ensures ToLower("ABCDEFGHIJKLMNOPQRSTUVWXYZ") == "abcdefghijklmnopqrstuvwxyz"
  {
  }

  /** Nothing else is changed. */
  lemma LowerIsLow(s: string)
    requires forall i :: 0 <= i < |s| ==> s[i] !in "ABCDEFGHIJKLMNOPQRSTUVWXYZ"
    ensures ToLower(s) == s
  {
    forall i | 0 <= i < |s|
      ensures !('A' <= s[i] <= 'Z')
    {
      if 'A' <= s[i] <= 'Z' { CapitalIsListed(s[i]); }
    }
  }

  lemma CapitalIsListed(c: char)
    requires 'A' <= c <= 'Z'
    ensures c in "ABCDEFGHIJKLMNOPQRSTUVWXYZ"
  {
    assert "ABCDEFGHIJKLMNOPQRSTUVWXYZ"[c as int - 'A' as int] == c;
  }

  /** strings.EqualFold, for the letters A to Z. */
  predicate EqualFold(s: string, t: string) {
    ToLower(s) == ToLower(t)
  }

  /** The length of the leading run of non-space characters. */
  function WordLength(s: string): (n: nat)
    ensures n <= |s|
    ensures forall i :: 0 <= i < n ==> !IsSpace(s[i])
    ensures n < |s| ==> IsSpace(s[n])
  {
    if s == "" || IsSpace(s[0]) then 0 else 1 + WordLength(s[1..])
  }

  /** strings.Fields. */
  function Fields(s: string): seq<string>
    decreases |s|
  {
    var t := TrimLeftSpace(s);
    if t == "" then []
    else
      var n := WordLength(t);
      assert n > 0;
      [t[..n]] + Fields(t[n..])
  }

  lemma WordIsWord(t: string)
    requires t != "" && !IsSpace(t[0])
    ensures 0 < WordLength(t) <= |t| && IsWord(t[..WordLength(t)])
  {
    hide IsSpace;
    assert forall i :: 0 <= i < WordLength(t) ==> t[..WordLength(t)][i] == t[i];
  }

  /** The fields are non-empty and free of white space. */
  lemma {:induction false} FieldsAreWords(s: string)
    ensures forall i :: 0 <= i < |Fields(s)| ==> IsWord(Fields(s)[i])
    decreases |s|
  {
    hide IsSpace, IsWord, WordLength, TrimLeftSpace;
    var t := TrimLeftSpace(s);
    if t != "" {
      WordIsWord(t);
      FieldsAreWords(t[WordLength(t)..]);
    }
  }

  /** strings.Join. */
  function Join(parts: seq<string>, sep: string): string {
    if parts == [] then ""
    else if |parts| == 1 then parts[0]
    else parts[0] + sep + Join(parts[1..], sep)
  }

  predicate NoNewline(s: string) {
    '\n' !in s
  }

  /** strings.Split(s, "\n"). */
  function Lines(s: string): (lines: seq<string>)
    ensures lines != []
    ensures forall i :: 0 <= i < |lines| ==> NoNewline(lines[i])
  {
    if s == "" then [""]
    else
      var rest := Lines(s[1..]);
      if s[0] == '\n' then [""] + rest else [[s[0]] + rest[0]] + rest[1..]
  }

  lemma {:induction false} WordLengthOfWord(w: string, rest: string)
    requires forall i :: 0 <= i < |w| ==> !IsSpace(w[i])
    requires rest != "" ==> IsSpace(rest[0])
    ensures WordLength(w + rest) == |w|
  {
    if w != "" {
      assert (w + rest)[1..] == w[1..] + rest;
      WordLengthOfWord(w[1..], rest);
    } else {
      assert w + rest == rest;
    }
  }

  /** Leading white space is invisible to Fields. */
  lemma {:induction false} FieldsAfterSpace(c: char, s: string)
    requires IsSpace(c)
    ensures Fields([c] + s) == Fields(s)
  {
    assert ([c] + s)[1..] == s;
    assert TrimLeftSpace([c] + s) == TrimLeftSpace(s);
  }

  lemma FieldsOfWordThen(w: string, rest: string)
    requires IsWord(w)
    requires rest != "" ==> IsSpace(rest[0])
    ensures Fields(w + rest) == [w] + Fields(rest)
  {
    var s := w + rest;
    assert s[0] == w[0];
    assert TrimLeftSpace(s) == s;
    WordLengthOfWord(w, rest);
    assert s[..|w|] == w && s[|w|..] == rest;
  }

  lemma FieldsOfNothing()
    ensures Fields("") == []
  {
  }

  lemma FieldsOfWord(w: string)
    requires IsWord(w)
    ensures Fields(w) == [w]
  {
    hide Fields;
    FieldsOfNothing();
    FieldsOfWordThen(w, "");
    assert w + "" == w;
  }

  lemma FieldsOfWordSpace(w: string, tail: string)
    requires IsWord(w)
    ensures Fields(w + " " + tail) == [w] + Fields(tail)
  {
    hide Fields;
    var rest := [' '] + tail;
    FieldsAfterSpace(' ', tail);
    FieldsOfWordThen(w, rest);
    assert w + " " + tail == w + rest;
  }

  /** Words joined by single spaces split back into the same words. */
  lemma {:induction false} FieldsOfJoin(words: seq<string>)
    requires forall i :: 0 <= i < |words| ==> IsWord(words[i])
    ensures Fields(Join(words, " ")) == words
  {
    hide Fields;
    if words == [] {
      FieldsOfNothing();
    } else if |words| == 1 {
      FieldsOfWord(words[0]);
    } else if |words| > 1 {
      FieldsOfJoin(words[1..]);
      FieldsOfWordSpace(words[0], Join(words[1..], " "));
    }
  }

  /** A join of words neither starts nor ends with white space. */
  lemma {:induction false} JoinEnds(words: seq<string>)
    requires words != [] && forall i :: 0 <= i < |words| ==> IsWord(words[i])
    ensures IsWord(words[0])
    ensures var s := Join(words, " ");
            s != "" && s[0] == words[0][0] && !IsSpace(s[|s| - 1])
  {
    if |words| > 1 {
      JoinEnds(words[1..]);
    }
  }

  lemma {:induction false} JoinNoNewline(words: seq<string>)
    requires forall i :: 0 <= i < |words| ==> NoNewline(words[i])
    ensures NoNewline(Join(words, " "))
  {
    if |words| > 1 {
      JoinNoNewline(words[1..]);
    }
  }

  lemma {:induction false} LinesOfLine(a: string, rest: string)
    requires NoNewline(a)
    ensures Lines(a) == [a]
    ensures Lines(a + "\n" + rest) == [a] + Lines(rest)
  {
    var s := a + "\n" + rest;
    if a == "" {
      assert s == ['\n'] + rest && s[1..] == rest;
    } else {
      LinesOfLine(a[1..], rest);
      assert s[1..] == a[1..] + "\n" + rest;
      assert a == [a[0]] + a[1..];
    }
  }

  /** Splitting what was joined gives the lines back. */
  lemma {:induction false} LinesOfJoin(lines: seq<string>)
    requires lines != [] && forall i :: 0 <= i < |lines| ==> NoNewline(lines[i])
    ensures Lines(Join(lines, "\n")) == lines
  {
    if |lines| == 1 {
      LinesOfLine(lines[0], "");
      assert lines == [lines[0]];
    } else {
      LinesOfLine(lines[0], Join(lines[1..], "\n"));
      LinesOfJoin(lines[1..]);
      assert lines == [lines[0]] + lines[1..];
    }
  }

  /** Joining what was split gives the text back. */
  lemma {:induction false} JoinOfLines(s: string)
    ensures Join(Lines(s), "\n") == s
  {
    if s != "" {
      var rest := Lines(s[1..]);
      JoinOfLines(s[1..]);
      assert s == [s[0]] + s[1..];
      if s[0] == '\n' {
        assert Lines(s)[1..] == rest;
      } else if |rest| > 1 {
        assert Lines(s)[1..] == rest[1..];
        assert Join(Lines(s), "\n") == [s[0]] + Join(rest, "\n");
      } else {
        assert Lines(s) == [[s[0]] + rest[0]];
      }
    }
  }

  /** Trimming text that ends in a non-space only removes its leading white space. */
  lemma {:induction false} TrimSpaceOf(indent: string, body: string)
    requires forall i :: 0 <= i < |indent| ==> IsSpace(indent[i])
    requires body != "" && !IsSpace(body[0]) && !IsSpace(body[|body| - 1])
    ensures TrimSpace(indent + body) == body
  {
    if indent == "" {
      assert indent + body == body;
    } else {
      assert (indent + body)[1..] == indent[1..] + body;
      TrimSpaceOf(indent[1..], body);
    }
  }

  // ----------------------------------------------------------- words in white space

  predicate AllSpace(s: string) {
    forall i :: 0 <= i < |s| ==> IsSpace(s[i])
  }

  /** The text is a word with white space around it. */
  predicate IsPadded(text: string, left: string, w: string, right: string) {
    text == left + w + right && IsWord(w) && AllSpace(left) && AllSpace(right)
  }

  lemma {:induction false} TrimRightPadding(body: string, right: string)
    requires (body != "" ==> !IsSpace(body[|body| - 1])) && AllSpace(right)
    ensures TrimRightSpace(body + right) == body
  {
    if right == "" {
      assert body + right == body;
    } else {
      assert (body + right)[..|body + right| - 1] == body + right[..|right| - 1];
      TrimRightPadding(body, right[..|right| - 1]);
    }
  }

  lemma {:induction false} TrimLeftPadding(left: string, body: string)
    requires (body != "" ==> !IsSpace(body[0])) && AllSpace(left)
    ensures TrimLeftSpace(left + body) == body
  {
    if left == "" {
      assert left + body == body;
    } else {
      assert (left + body)[1..] == left[1..] + body;
      TrimLeftPadding(left[1..], body);
    }
  }

  lemma PaddedTrims(text: string, left: string, w: string, right: string)
    requires IsPadded(text, left, w, right)
    ensures TrimSpace(text) == w
  {
    hide TrimLeftSpace, TrimRightSpace, IsSpace;
    assert text == left + (w + right);
    TrimLeftPadding(left, w + right);
    TrimRightPadding(w, right);
  }

  lemma {:induction false} LeftIsSpace(s: string)
    ensures AllSpace(s[..|s| - |TrimLeftSpace(s)|])
  {
    hide IsSpace;
    if s != "" && IsSpace(s[0]) {
      LeftIsSpace(s[1..]);
      var n := |s| - |TrimLeftSpace(s)|;
      assert forall i :: 0 < i < n ==> s[i] == s[1..][..n - 1][i - 1];
    }
  }

  lemma {:induction false} RightIsSpace(s: string)
    ensures AllSpace(s[|TrimRightSpace(s)|..])
  {
    hide IsSpace;
    if s != "" && IsSpace(s[|s| - 1]) {
      RightIsSpace(s[..|s| - 1]);
      var n := |TrimRightSpace(s)|;
      assert forall i :: n <= i < |s| - 1 ==> s[i] == s[..|s| - 1][n..][i - n];
    }
  }

  lemma LeftPart(s: string) returns (left: string)
    ensures s == left + TrimLeftSpace(s) && AllSpace(left)
  {
    hide IsSpace, AllSpace;
    LeftIsSpace(s);
    left := s[..|s| - |TrimLeftSpace(s)|];
  }

  lemma RightPart(s: string) returns (right: string)
    ensures s == TrimRightSpace(s) + right && AllSpace(right)
  {
    hide IsSpace, AllSpace;
    RightIsSpace(s);
    right := s[|TrimRightSpace(s)|..];
  }

  /** What trimming takes off is white space. */
  lemma Padding(s: string) returns (left: string, right: string)
    ensures s == left + TrimSpace(s) + right && AllSpace(left) && AllSpace(right)
  {
    hide IsSpace, AllSpace, TrimLeftSpace, TrimRightSpace;
    left := LeftPart(s);
    right := RightPart(TrimLeftSpace(s));
  }
}
