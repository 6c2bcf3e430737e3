/**
 * Rust's `str::trim`: it drops the leading and trailing characters that
 * have the Unicode White_Space property.
 */
module Text {

  predicate IsWhitespace(c: char) {
    || ('\t' <= c <= '\r')
    || c == ' '
    || c == '\U{85}'
    || c == '\U{A0}'
    || c == '\U{1680}'
    || ('\U{2000}' <= c <= '\U{200A}')
    || c == '\U{2028}'
    || c == '\U{2029}'
    || c == '\U{202F}'
    || c == '\U{205F}'
    || c == '\U{3000}'
  }

  predicate AllWhitespace(s: string) {
    forall i :: 0 <= i < |s| ==> IsWhitespace(s[i])
  }

  function TrimStart(s: string): string {
    if s != [] && IsWhitespace(s[0]) then TrimStart(s[1..]) else s
  }

  function TrimEnd(s: string): string {
    if s != [] && IsWhitespace(s[|s| - 1]) then TrimEnd(s[..|s| - 1]) else s
  }

  function Trim(s: string): string {
    TrimEnd(TrimStart(s))
  }

  /** Leading whitespace in front of a text that does not start with whitespace is removed. */
  lemma {:induction false} TrimStartPadding(pad: string, t: string)
    requires AllWhitespace(pad)
    requires t == [] || !IsWhitespace(t[0])
    ensures TrimStart(pad + t) == t
  {
    if pad == [] {
      assert pad + t == t;
    } else {
      assert (pad + t)[1..] == pad[1..] + t;
      TrimStartPadding(pad[1..], t);
    }
  }

  /** Trailing whitespace after a text that does not end with whitespace is removed. */
  lemma {:induction false} TrimEndPadding(t: string, pad: string)
    requires AllWhitespace(pad)
    requires t == [] || !IsWhitespace(t[|t| - 1])
    ensures TrimEnd(t + pad) == t
  {
    if pad == [] {
      assert t + pad == t;
    } else {
      var s := t + pad;
      assert s[..|s| - 1] == t + pad[..|pad| - 1];
      TrimEndPadding(t, pad[..|pad| - 1]);
    }
  }

  /** TrimStart removes a whitespace prefix and keeps the rest. */
  lemma {:induction false} TrimStartSplit(s: string) returns (k: nat)
    ensures k <= |s| && AllWhitespace(s[..k]) && TrimStart(s) == s[k..]
  {
    if s != [] && IsWhitespace(s[0]) {
      var k' := TrimStartSplit(s[1..]);
      k := k' + 1;
      assert s[..k] == [s[0]] + s[1..][..k'];
      assert s[k..] == s[1..][k'..];
    } else {
      k := 0;
    }
  }

  /** TrimEnd removes a whitespace suffix and keeps the rest. */
  lemma {:induction false} TrimEndSplit(s: string) returns (k: nat)
    ensures k <= |s| && AllWhitespace(s[k..]) && TrimEnd(s) == s[..k]
  {
    if s != [] && IsWhitespace(s[|s| - 1]) {
      var init := s[..|s| - 1];
      k := TrimEndSplit(init);
      assert s[k..] == init[k..] + [s[|s| - 1]];
      assert s[..k] == init[..k];
    } else {
      k := |s|;
    }
  }

  /** A reply trims to "y" exactly when it is "y" with only whitespace around it. */
  lemma TrimIsY(s: string)
    ensures Trim(s) == "y" <==>
            exists pre, post :: AllWhitespace(pre) && AllWhitespace(post) && s == pre + "y" + post
  {
    if Trim(s) == "y" {
      var k := TrimStartSplit(s);
      var rest := s[k..];
      var m := TrimEndSplit(rest);
      var pre, post := s[..k], rest[m..];
      assert rest[..m] == "y";
      assert s == pre + rest;
      assert rest == rest[..m] + post;
      assert s == pre + "y" + post;
    }
    if exists pre, post :: AllWhitespace(pre) && AllWhitespace(post) && s == pre + "y" + post {
      var pre, post :| AllWhitespace(pre) && AllWhitespace(post) && s == pre + "y" + post;
      assert s == pre + ("y" + post);
      TrimStartPadding(pre, "y" + post);
      TrimEndPadding("y", post);
    }
  }

  /** The line read from the console keeps its newline; trimming it leaves the answer. */
  lemma TrimReplyLine(answer: string)
    requires answer == [] || (!IsWhitespace(answer[0]) && !IsWhitespace(answer[|answer| - 1]))
    ensures Trim(answer + "\n") == answer
  {
    if answer == [] {
      assert answer + "\n" == "\n";
      assert "\n"[1..] == "";
      assert TrimStart("\n") == TrimStart("") == "";
      assert TrimEnd("") == "";
    } else {
      assert [] + (answer + "\n") == answer + "\n";
      TrimStartPadding([], answer + "\n");
      TrimEndPadding(answer, "\n");
    }
  }
}
