/** ASCII models of the Go string operations the scanner relies on:
    strings.TrimSpace, strings.ToLower and the quoting done by fmt's %q verb. */
module Text {

  /** The ASCII white space strings.TrimSpace removes: '\t', '\n', '\v', '\f', '\r' and ' '. */
  predicate IsSpace(c: char) {
    c == ' ' || c == '\t' || c == '\n' || c == '\U{000B}' || c == '\U{000C}' || c == '\r'
  }

  predicate AllSpace(s: string) {
    forall i :: 0 <= i < |s| ==> IsSpace(s[i])
  }

  predicate IsUpper(c: char) {
    'A' <= c <= 'Z'
  }

  predicate NoUpper(s: string) {
    forall i :: 0 <= i < |s| ==> !IsUpper(s[i])
  }

  /** Drops the leading white space. */
  function TrimLeft(s: string): string {
    if s == [] || !IsSpace(s[0]) then s else TrimLeft(s[1..])
  }

  /** Drops the trailing white space. */
  function TrimRight(s: string): string {
    if s == [] || !IsSpace(s[|s| - 1]) then s else TrimRight(s[..|s| - 1])
  }

  /** strings.TrimSpace. */
  function TrimSpace(s: string): string {
    TrimRight(TrimLeft(s))
  }

  /** What TrimLeft leaves is a suffix of s that is empty or starts with a character
      that is not white space, and all it dropped is white space. */
  lemma {:induction false} TrimLeftSpec(s: string)
    ensures var r := TrimLeft(s);
      && |r| <= |s| && r == s[|s| - |r|..]
      && AllSpace(s[..|s| - |r|])
      && (r == [] || !IsSpace(r[0]))
  {
    if s != [] && IsSpace(s[0]) {
      TrimLeftSpec(s[1..]);
      var r := TrimLeft(s[1..]);
      assert s[..|s| - |r|] == [s[0]] + s[1..][..|s| - 1 - |r|];
    }
  }

  /** What TrimRight leaves is a prefix of s that is empty or ends with a character
      that is not white space, and all it dropped is white space. */
  lemma {:induction false} TrimRightSpec(s: string)
    ensures var r := TrimRight(s);
      && |r| <= |s| && r == s[..|r|]
      && AllSpace(s[|r|..])
      && (r == [] || !IsSpace(r[|r| - 1]))
  {
    if s != [] && IsSpace(s[|s| - 1]) {
      TrimRightSpec(s[..|s| - 1]);
      var r := TrimRight(s[..|s| - 1]);
      assert s[|r|..] == s[..|s| - 1][|r|..] + [s[|s| - 1]];
    }
  }

  /** TrimSpace leaves a piece of s that neither begins nor ends with white space,
      and leaves nothing exactly when s is all white space. */
  lemma TrimSpaceSpec(s: string)
    ensures var r := TrimSpace(s);
      && |r| <= |s|
      && (r == [] <==> AllSpace(s))
      && (r == [] || (!IsSpace(r[0]) && !IsSpace(r[|r| - 1])))
  {
    var t := TrimLeft(s);
    TrimLeftSpec(s);
    TrimRightSpec(t);
    var r := TrimRight(t);
    assert r == [] ==> s == s[..|s| - |t|] + t[|r|..];
    assert r != [] ==> r[0] == t[0];
  }

  /** Padding made of white space on both sides of a word that neither begins nor ends
      with white space is exactly what TrimSpace takes away. */
  lemma {:induction false} TrimSpacePadded(pre: string, w: string, post: string)
    requires AllSpace(pre) && AllSpace(post)
    requires w != [] && !IsSpace(w[0]) && !IsSpace(w[|w| - 1])
    ensures TrimSpace(pre + w + post) == w
  {
    assert pre + w + post == pre + (w + post);
    TrimLeftPadded(pre, w + post);
    assert TrimLeft(pre + w + post) == w + post;
    TrimRightPadded(w, post);
  }

  lemma {:induction false} TrimLeftPadded(pre: string, s: string)
    requires AllSpace(pre)
    requires s != [] && !IsSpace(s[0])
    ensures TrimLeft(pre + s) == s
  {
    if pre != [] {
      assert (pre + s)[1..] == pre[1..] + s;
      TrimLeftPadded(pre[1..], s);
    } else {
      assert pre + s == s;
    }
  }

  lemma {:induction false} TrimRightPadded(w: string, post: string)
    requires AllSpace(post)
    requires w != [] && !IsSpace(w[|w| - 1])
    ensures TrimRight(w + post) == w
  {
    if post != [] {
      assert (w + post)[..|w + post| - 1] == w + post[..|post| - 1];
      TrimRightPadded(w, post[..|post| - 1]);
    } else {
      assert w + post == w;
    }
  }

  /** Trailing text after a word that starts and ends with something other than white
      space survives TrimSpace, save for its own trailing white space: the word stays a
      prefix of the trimmed result. */
  lemma {:induction false} TrimSpaceKeepsLeadingWord(pre: string, w: string, rest: string)
    requires AllSpace(pre)
    requires w != [] && !IsSpace(w[0]) && !IsSpace(w[|w| - 1])
    ensures |TrimSpace(pre + w + rest)| >= |w| && TrimSpace(pre + w + rest)[..|w|] == w
  {
    assert pre + w + rest == pre + (w + rest);
    TrimLeftPadded(pre, w + rest);
    TrimRightKeepsPrefix(w, rest);
  }

  lemma {:induction false} TrimRightKeepsPrefix(w: string, rest: string)
    requires w != [] && !IsSpace(w[|w| - 1])
    ensures |TrimRight(w + rest)| >= |w| && TrimRight(w + rest)[..|w|] == w
  {
    if rest != [] && IsSpace(rest[|rest| - 1]) {
      assert (w + rest)[..|w + rest| - 1] == w + rest[..|rest| - 1];
      TrimRightKeepsPrefix(w, rest[..|rest| - 1]);
    } else {
      assert (w + rest)[..|w|] == w;
    }
  }

  /** ASCII case mapping of strings.ToLower: 'A'..'Z' become 'a'..'z', nothing else changes. */
  function LowerChar(c: char): (d: char)
    ensures !IsUpper(d)
    ensures IsUpper(c) ==> d as int == c as int + 32
    ensures !IsUpper(c) ==> d == c
  {
    if IsUpper(c) then (c as int + 32) as char else c
  }

  /** strings.ToLower. */
  function ToLower(s: string): string {
    if s == [] then [] else [LowerChar(s[0])] + ToLower(s[1..])
  }

  /** ToLower keeps the length, maps each character on its own, and leaves no
      upper-case letter. */
  lemma {:induction false} ToLowerSpec(s: string)
    ensures |ToLower(s)| == |s|
    ensures forall i :: 0 <= i < |s| ==> ToLower(s)[i] == LowerChar(s[i])
    ensures NoUpper(ToLower(s))
  {
    if s != [] {
      ToLowerSpec(s[1..]);
    }
  }

  /** A string without upper-case letters is left alone by ToLower. */
  lemma {:induction false} ToLowerFixes(s: string)
    requires NoUpper(s)
    ensures ToLower(s) == s
  {
    if s != [] {
      ToLowerFixes(s[1..]);
    }
  }

  /** Lower-casing a prefix is taking the prefix of the lower-cased string. */
  lemma ToLowerPrefix(s: string, n: nat)
    requires n <= |s|
    ensures |ToLower(s)| == |s| && ToLower(s[..n]) == ToLower(s)[..n]
  {
    ToLowerSpec(s);
    ToLowerSpec(s[..n]);
  }

  function LowerHexDigit(n: int): (c: char)
    requires 0 <= n < 16
  {
    "0123456789abcdef"[n]
  }

  /** A character strconv.Quote cannot emit as itself: an ASCII control character. */
  predicate IsControl(c: char) {
    c < ' ' || c == '\U{007F}'
  }

  /** The escape strconv.Quote writes for one ASCII character. */
  function EscapeChar(c: char): (r: string)
    ensures 1 <= |r| <= 4
    ensures forall i :: 0 <= i < |r| ==> !IsControl(r[i])
    ensures r == [c] <==> !IsControl(c) && c != '"' && c != '\\'
  {
    if c == '"' then "\\\""
    else if c == '\\' then "\\\\"
    else if c == '\U{0007}' then "\\a"
    else if c == '\U{0008}' then "\\b"
    else if c == '\U{000C}' then "\\f"
    else if c == '\n' then "\\n"
    else if c == '\r' then "\\r"
    else if c == '\t' then "\\t"
    else if c == '\U{000B}' then "\\v"
    else if IsControl(c) then "\\x" + [LowerHexDigit(c as int / 16), LowerHexDigit(c as int % 16)]
    else [c]
  }

  function Escape(s: string): (r: string)
    ensures |r| >= |s|
    ensures forall i :: 0 <= i < |r| ==> !IsControl(r[i])
  {
    if s == [] then [] else EscapeChar(s[0]) + Escape(s[1..])
  }

  /** fmt's %q of a string: a double-quoted Go literal. It never holds a control
      character, so a quoted path cannot break a log line in two. */
  function Quote(s: string): (r: string)
    ensures |r| >= |s| + 2
    ensures r[0] == '"' && r[|r| - 1] == '"'
    ensures forall i :: 0 <= i < |r| ==> !IsControl(r[i])
  {
    "\"" + Escape(s) + "\""
  }

  /** A string of printable characters other than quote and backslash is quoted as itself. */
  lemma {:induction false} QuotePlain(s: string)
    requires forall i :: 0 <= i < |s| ==> !IsControl(s[i]) && s[i] != '"' && s[i] != '\\'
    ensures Quote(s) == "\"" + s + "\""
  {
    EscapePlain(s);
  }

  lemma {:induction false} EscapePlain(s: string)
    requires forall i :: 0 <= i < |s| ==> !IsControl(s[i]) && s[i] != '"' && s[i] != '\\'
    ensures Escape(s) == s
  {
    if s != [] {
      EscapePlain(s[1..]);
      assert s == [s[0]] + s[1..];
    }
  }
}
