/** Image paths in URLs: escaped segment by segment, unescaped by the handlers. Characters stand for bytes. */
module Percent {
  import opened Models
  import G = Groups

  predicate Bytes(s: string) {
    forall i | 0 <= i < |s| :: s[i] as int < 256
  }

  predicate Alphanumeric(c: char) {
    'a' <= c <= 'z' || 'A' <= c <= 'Z' || '0' <= c <= '9'
  }

  /** What a path segment keeps as it is. */
  predicate Plain(c: char) {
    Alphanumeric(c) || c in "-_.~$&+:=@"
  }

  function HexDigit(n: nat): (c: char)
    requires n < 16
  {
    "0123456789ABCDEF"[n]
  }

  function HexValue(c: char): (n: Option<nat>)
    ensures n.Some? ==> n.value < 16
  {
    if '0' <= c <= '9' then Some(c as int - '0' as int)
    else if 'a' <= c <= 'f' then Some(c as int - 'a' as int + 10)
    else if 'A' <= c <= 'F' then Some(c as int - 'A' as int + 10)
    else None
  }

  function EscapeChar(c: char): string
    requires c as int < 256
  {
    if Plain(c) then [c] else ['%', HexDigit(c as int / 16), HexDigit(c as int % 16)]
  }

  function Escape(s: string): string
    requires Bytes(s)
  {
    if s == "" then "" else EscapeChar(s[0]) + Escape(s[1..])
  }

  /** None when a '%' is not followed by two hexadecimal digits. */
  function Unescape(s: string): Option<string> {
    if s == "" then Some("")
    else if s[0] != '%' then Prepend(s[0], Unescape(s[1..]))
    else if |s| < 3 || HexValue(s[1]).None? || HexValue(s[2]).None? then None
    else Prepend((16 * HexValue(s[1]).value + HexValue(s[2]).value) as char, Unescape(s[3..]))
  }

  function Prepend(c: char, rest: Option<string>): Option<string> {
    if rest.None? then None else Some([c] + rest.value)
  }

  /** Letters, digits and ten signs are kept; any other byte becomes a percent sign and two upper-case digits. */
  lemma CharactersAre(c: char)
    requires c as int < 256
    ensures if 'A' <= c <= 'Z' || 'a' <= c <= 'z' || '0' <= c <= '9'
               || c in {'-', '_', '.', '~', '$', '&', '+', ':', '=', '@'}
            then EscapeChar(c) == [c]
            else EscapeChar(c) == ['%', "0123456789ABCDEF"[c as int / 16], "0123456789ABCDEF"[c as int % 16]]
  {
  }

  /** The hexadecimal digits that are read, in either case. */
  lemma HexDigitsAre(c: char, n: nat)
    ensures HexValue(c) == Some(n) <==> n < 16 && (c == "0123456789abcdef"[n] || c == "0123456789ABCDEF"[n])
  {
  }

  // ---- One segment ----

  lemma HexRoundTrip(n: nat)
    requires n < 16
    ensures HexValue(HexDigit(n)) == Some(n)
    ensures HexDigit(n) != '/' && HexDigit(n) != '%'
  {
  }

  lemma UnescapeChar(c: char, more: string)
    requires c as int < 256 && Unescape(more).Some?
    ensures Unescape(EscapeChar(c) + more) == Some([c] + Unescape(more).value)
  {
    var e := EscapeChar(c) + more;
    if Plain(c) {
      assert e[1..] == more;
    } else {
      HexRoundTrip(c as int / 16);
      HexRoundTrip(c as int % 16);
      assert e[3..] == more;
    }
  }

  lemma Regroup(a: string, b: string, c: string)
    ensures a + b + c == a + (b + c)
  {
  }

  lemma {:induction false} UnescapeEscape(s: string, rest: string)
    requires Bytes(s) && Unescape(rest).Some?
    ensures Unescape(Escape(s) + rest) == Some(s + Unescape(rest).value)
    decreases |s|
  {
    var tail := Unescape(rest).value;
    if s == "" {
      assert Escape(s) + rest == rest && s + tail == tail;
    } else {
      var more := Escape(s[1..]) + rest;
      UnescapeEscape(s[1..], rest);
      UnescapeChar(s[0], more);
      Regroup(EscapeChar(s[0]), Escape(s[1..]), rest);
      Regroup([s[0]], s[1..], tail);
      assert s == [s[0]] + s[1..];
    }
  }

  lemma {:induction false} EscapeHasNoSlash(s: string)
    requires Bytes(s)
    ensures G.NoSlash(Escape(s))
    decreases |s|
  {
    if s != "" {
      EscapeHasNoSlash(s[1..]);
      HexRoundTrip(s[0] as int / 16);
      HexRoundTrip(s[0] as int % 16);
    }
  }

  // ---- Whole paths ----

  /** A path cut at its slashes goes back together. */
  lemma {:induction false} JoinOfSplit(s: string)
    ensures G.Join(G.Split(s)) == s
    decreases |s|
  {
    if s != "" {
      var rest := G.Split(s[1..]);
      JoinOfSplit(s[1..]);
      if s[0] == '/' {
        JoinFront("", rest);
      } else {
        JoinHead(s[0], rest);
      }
    }
  }

  lemma {:induction false} JoinFront(first: string, rest: seq<string>)
    requires rest != []
    ensures G.Join([first] + rest) == first + "/" + G.Join(rest)
    decreases |rest|
  {
    var n := |rest| - 1;
    assert ([first] + rest)[..n + 1] == [first] + rest[..n];
    if n > 0 {
      JoinFront(first, rest[..n]);
    }
  }

  lemma {:induction false} JoinHead(c: char, segs: seq<string>)
    requires segs != []
    ensures G.Join([[c] + segs[0]] + segs[1..]) == [c] + G.Join(segs)
    decreases |segs|
  {
    var n := |segs| - 1;
    if n > 0 {
      JoinHead(c, segs[..n]);
      assert ([[c] + segs[0]] + segs[1..])[..n] == [[c] + segs[..n][0]] + segs[..n][1..];
    }
  }

  predicate AllBytes(segs: seq<string>) {
    forall i | 0 <= i < |segs| :: Bytes(segs[i])
  }

  function EscapeAll(segs: seq<string>): (out: seq<string>)
    requires AllBytes(segs)
    ensures |out| == |segs| && forall i | 0 <= i < |segs| :: out[i] == Escape(segs[i])
  {
    seq(|segs|, i requires 0 <= i < |segs| => Escape(segs[i]))
  }

  lemma {:induction false} SplitBytes(s: string)
    requires Bytes(s)
    ensures AllBytes(G.Split(s))
    decreases |s|
  {
    if s != "" {
      SplitBytes(s[1..]);
    }
  }

  function Encode(path: string): string
    requires Bytes(path)
  {
    SplitBytes(path);
    G.Join(EscapeAll(G.Split(path)))
  }

  method EncodePathSegments(path: string) returns (encoded: string)
    requires Bytes(path)
    ensures encoded == Encode(path)
  {
    SplitBytes(path);
    var was := G.Split(path);
    var segs := was;
    for i := 0 to |segs|
      invariant |segs| == |was|
      invariant forall k | 0 <= k < i :: segs[k] == EscapeAll(was)[k]
      invariant forall k | i <= k < |segs| :: segs[k] == was[k]
    {
      segs := segs[i := Escape(segs[i])];
    }
    assert segs == EscapeAll(was);
    encoded := G.Join(segs);
  }

  lemma JoinLast(segs: seq<string>, rest: string)
    requires |segs| > 1
    ensures var n := |segs| - 1; G.Join(segs) + rest == G.Join(segs[..n]) + ("/" + (segs[n] + rest))
  {
  }

  lemma {:induction false} UnescapeJoin(segs: seq<string>, rest: string)
    requires segs != [] && AllBytes(segs) && Unescape(rest).Some?
    ensures Unescape(G.Join(EscapeAll(segs)) + rest) == Some(G.Join(segs) + Unescape(rest).value)
    decreases |segs|
  {
    var n := |segs| - 1;
    var tail := Unescape(rest).value;
    UnescapeEscape(segs[n], rest);
    if n > 0 {
      var front, more := segs[..n], "/" + (Escape(segs[n]) + rest);
      assert EscapeAll(segs)[..n] == EscapeAll(front);
      assert Unescape(more) == Some("/" + (segs[n] + tail)) by {
        assert more[1..] == Escape(segs[n]) + rest;
      }
      UnescapeJoin(front, more);
      JoinLast(EscapeAll(segs), rest);
      JoinLast(segs, tail);
    }
  }

  /** The segments of what the menu writes are those of the path, escaped one by one. */
  lemma {:induction false} EncodeKeepsSegments(path: string)
    requires Bytes(path) && AllBytes(G.Split(path))
    ensures G.Split(Encode(path)) == EscapeAll(G.Split(path))
  {
    var segs := G.Split(path);
    forall i | 0 <= i < |segs| ensures G.NoSlash(EscapeAll(segs)[i]) {
      EscapeHasNoSlash(segs[i]);
    }
    G.SplitOfJoin(EscapeAll(segs));
  }

  /** Unescaping what the menu wrote gives the path. */
  lemma {:induction false} EncodeRoundTrip(path: string)
    requires Bytes(path)
    ensures Unescape(Encode(path)) == Some(path)
  {
    SplitBytes(path);
    UnescapeJoin(G.Split(path), "");
    JoinOfSplit(path);
    assert Encode(path) + "" == Encode(path) && path + "" == path;
  }

  lemma {:induction false} UnescapeShrinks(s: string)
    requires Unescape(s).Some?
    ensures |Unescape(s).value| <= |s|
    ensures '%' in s ==> |Unescape(s).value| < |s|
    ensures '%' !in s ==> Unescape(s).value == s
    decreases |s|
  {
    if s != "" {
      assert s == [s[0]] + s[1..];
      if s[0] == '%' {
        UnescapeShrinks(s[3..]);
      } else {
        UnescapeShrinks(s[1..]);
      }
    }
  }

  lemma {:induction false} NoPercentUnescapes(s: string)
    requires '%' !in s
    ensures Unescape(s) == Some(s)
    decreases |s|
  {
    if s != "" {
      NoPercentUnescapes(s[1..]);
      assert s == [s[0]] + s[1..];
    }
  }

  /** A request path is unescaped by the server and once more by the handler: right exactly for names without '%'. */
  lemma TwiceUnescapedIff(path: string)
    requires Bytes(path)
    ensures var once := Unescape(Encode(path));
            once.Some? && (Unescape(once.value) == Some(path) <==> '%' !in path)
  {
    EncodeRoundTrip(path);
    if '%' !in path {
      NoPercentUnescapes(path);
    } else if Unescape(path).Some? {
      UnescapeShrinks(path);
    }
  }

  /** An image whose name holds an escape of its own is looked up under another name. */
  lemma EscapeInNameIsLost()
    ensures Unescape(Encode("%25")) == Some("%25") && Unescape("%25") == Some("%")
  {
    var name := "%25";
    EncodeRoundTrip(name);
    assert name[3..] == "" && Unescape(name[3..]) == Some("");
    assert HexValue(name[1]) == Some(2) && HexValue(name[2]) == Some(5);
    assert Unescape(name) == Prepend((16 * 2 + 5) as char, Some(""));
    assert (16 * 2 + 5) as char == '%' && ['%'] + "" == "%";
  }
}
