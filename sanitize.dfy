/** Input sanitisation of `lib/sanitize.ts`: HTML escaping, URL filtering, text truncation
    and the clamping of gift and list form data. Every operation is a total function on
    strings (sequences of characters). */
module Sanitize {
  import opened Wrappers
  import opened Collections

  // ---------------------------------------------------------------- string primitives

  /** `s.includes(p)`: `p` occurs somewhere in `s`. */
  predicate Includes(s: string, p: string)
    ensures Includes(s, p) <==> Occurs(p, s)
    decreases |s|
  {
    OccursShift(p, s);
    StartsWith(s, p) || (s != [] && Includes(s[1..], p))
  }

  /** The characters that ECMAScript's `String.prototype.trim` removes:
      WhiteSpace (TAB, VT, FF, SP, NBSP, ZWNBSP and the Unicode space separators)
      and LineTerminator (LF, CR, LS, PS). */
  predicate IsTrimmable(c: char)
  {
    var n := c as int;
    n == 0x09 || n == 0x0A || n == 0x0B || n == 0x0C || n == 0x0D || n == 0x20 ||
    n == 0xA0 || n == 0x1680 || (0x2000 <= n <= 0x200A) || n == 0x2028 || n == 0x2029 ||
    n == 0x202F || n == 0x205F || n == 0x3000 || n == 0xFEFF
  }

  /** Neither end of the string is a trimmable character. */
  predicate IsTrimmed(s: string)
  {
    s == [] || (!IsTrimmable(s[0]) && !IsTrimmable(s[|s| - 1]))
  }

  /** The scan from the left: the index of the first character at or after `i` that `trim`
      keeps, or `|s|` when there is none. */
  function SkipLeading(s: string, i: nat): (n: nat)
    requires i <= |s|
    ensures i <= n <= |s|
    ensures n == |s| || !IsTrimmable(s[n])
    ensures forall j :: i <= j < n ==> IsTrimmable(s[j])
    decreases |s| - i
  {
    if i < |s| && IsTrimmable(s[i]) then SkipLeading(s, i + 1) else i
  }

  /** The scan from the right, stopping at `lo`: the index just past the last character
      of `s[lo..hi]` that `trim` keeps, or `lo` when there is none. */
  function SkipTrailing(s: string, lo: nat, hi: nat): (n: nat)
    requires lo <= hi <= |s|
    ensures lo <= n <= hi
    ensures n == lo || !IsTrimmable(s[n - 1])
    ensures forall j :: n <= j < hi ==> IsTrimmable(s[j])
    decreases hi - lo
  {
    if lo < hi && IsTrimmable(s[hi - 1]) then SkipTrailing(s, lo, hi - 1) else hi
  }

  /** `r` is the slice of `s` starting at `k`, and every character around it is trimmable. */
  predicate IsTrimSlice(s: string, r: string, k: int)
  {
    0 <= k && k + |r| <= |s| && r == s[k..k + |r|] &&
    (forall i :: 0 <= i < k ==> IsTrimmable(s[i])) &&
    (forall i :: k + |r| <= i < |s| ==> IsTrimmable(s[i]))
  }

  /** `s.trim()`: the slice of `s` left after removing trimmable characters at both ends. */
  function Trim(s: string): (r: string)
    ensures |r| <= |s|
    ensures IsTrimmed(r)
    ensures exists k :: IsTrimSlice(s, r, k)
  {
    var start := SkipLeading(s, 0);
    var end := SkipTrailing(s, start, |s|);
    assert IsTrimSlice(s, s[start..end], start);
    s[start..end]
  }

  /** A string that starts and ends with a non-trimmable character is its own trim. */
  lemma TrimOfTrimmed(s: string)
    requires IsTrimmed(s)
    ensures Trim(s) == s
  {
  }

  /** Lower-casing of the letters A-Z; every other character is left as it is. */
  function LowerAscii(c: char): char
  {
    if 'A' <= c <= 'Z' then (c as int + 32) as char else c
  }

  /** `s.toLowerCase()` restricted to ASCII letters (see README). */
  function ToLower(s: string): (r: string)
    ensures |r| == |s|
    ensures forall i :: 0 <= i < |s| ==> r[i] == LowerAscii(s[i])
  {
    seq(|s|, i requires 0 <= i < |s| => LowerAscii(s[i]))
  }

  // ---------------------------------------------------------------- escapeHtml

  /** `s.replace(/c/g, rep)`: every occurrence of the character `c` replaced by `rep`. */
  function ReplaceAll(s: string, c: char, rep: string): (r: string)
    ensures |rep| >= 1 ==> |r| >= |s|
  {
    if s == [] then []
    else (if s[0] == c then rep else [s[0]]) + ReplaceAll(s[1..], c, rep)
  }

  /** A character absent from the replacement is absent from the result when it is the
      replaced character or was absent from the input. */
  lemma {:induction false} ReplaceAllAvoids(s: string, c: char, rep: string, x: char)
    requires x !in rep && (x == c || x !in s)
    ensures x !in ReplaceAll(s, c, rep)
  {
    if s != [] {
      assert x !in (if s[0] == c then rep else [s[0]]);
      ReplaceAllAvoids(s[1..], c, rep, x);
    }
  }

  /** `escapeHtml`: the chain of five global replacements, `&` first. */
  function EscapeHtml(unsafe: string): (r: string)
    ensures '<' !in r && '>' !in r && '"' !in r && '\'' !in r
    ensures |r| >= |unsafe|
  {
    var s1 := ReplaceAll(unsafe, '&', "&amp;");
    var s2 := ReplaceAll(s1, '<', "&lt;");
    var s3 := ReplaceAll(s2, '>', "&gt;");
    var s4 := ReplaceAll(s3, '"', "&quot;");
    var r := ReplaceAll(s4, '\'', "&#039;");
    ReplaceAllAvoids(s1, '<', "&lt;", '<');
    ReplaceAllAvoids(s2, '>', "&gt;", '<');
    ReplaceAllAvoids(s3, '"', "&quot;", '<');
    ReplaceAllAvoids(s4, '\'', "&#039;", '<');
    ReplaceAllAvoids(s2, '>', "&gt;", '>');
    ReplaceAllAvoids(s3, '"', "&quot;", '>');
    ReplaceAllAvoids(s4, '\'', "&#039;", '>');
    ReplaceAllAvoids(s3, '"', "&quot;", '"');
    ReplaceAllAvoids(s4, '\'', "&#039;", '"');
    ReplaceAllAvoids(s4, '\'', "&#039;", '\'');
    r
  }

  /** The five characters that `escapeHtml` rewrites. */
  predicate IsHtmlSpecial(c: char)
  {
    c == '&' || c == '<' || c == '>' || c == '"' || c == '\''
  }

  /** Reference definition: the entity that stands for one character. */
  function EntityOf(c: char): string
  {
    if c == '&' then "&amp;"
    else if c == '<' then "&lt;"
    else if c == '>' then "&gt;"
    else if c == '"' then "&quot;"
    else if c == '\'' then "&#039;"
    else [c]
  }

  /** Reference definition: each character escaped on its own, left to right. */
  function EscapeEach(s: string): string
  {
    if s == [] then [] else EntityOf(s[0]) + EscapeEach(s[1..])
  }

  lemma {:induction false} ReplaceAllAppend(s: string, t: string, c: char, rep: string)
    ensures ReplaceAll(s + t, c, rep) == ReplaceAll(s, c, rep) + ReplaceAll(t, c, rep)
  {
    if s == [] {
      assert s + t == t;
    } else {
      assert (s + t)[1..] == s[1..] + t;
      ReplaceAllAppend(s[1..], t, c, rep);
    }
  }

  lemma {:induction false} ReplaceAllAbsent(s: string, c: char, rep: string)
    requires c !in s
    ensures ReplaceAll(s, c, rep) == s
  {
    if s != [] {
      ReplaceAllAbsent(s[1..], c, rep);
    }
  }

  lemma ReplaceAllSingle(x: char, c: char, rep: string)
    ensures ReplaceAll([x], c, rep) == if x == c then rep else [x]
  {
    assert [x][1..] == [];
  }

  /** The chain of replacements applied to a one-character string. */
  lemma EscapeHtmlSingle(c: char)
    ensures EscapeHtml([c]) ==
      var s1 := if c == '&' then "&amp;" else [c];
      var s2 := ReplaceAll(s1, '<', "&lt;");
      var s3 := ReplaceAll(s2, '>', "&gt;");
      var s4 := ReplaceAll(s3, '"', "&quot;");
      ReplaceAll(s4, '\'', "&#039;")
  {
    ReplaceAllSingle(c, '&', "&amp;");
  }

  lemma EscapeAmpersand()
    ensures EscapeHtml("&") == "&amp;"
  {
    EscapeHtmlSingle('&');
    var a := "&amp;";
    EntityIsStable(a);
    assert ReplaceAll(ReplaceAll(a, '<', "&lt;"), '>', "&gt;") == a;
  }

  lemma EscapeLess()
    ensures EscapeHtml("<") == "&lt;"
  {
    EscapeHtmlSingle('<');
    ReplaceAllSingle('<', '<', "&lt;");
    EntityIsStable("&lt;");
  }

  lemma EscapeGreater()
    ensures EscapeHtml(">") == "&gt;"
  {
    EscapeHtmlSingle('>');
    ReplaceAllSingle('>', '<', "&lt;");
    ReplaceAllSingle('>', '>', "&gt;");
    EntityIsStable("&gt;");
  }

  lemma EscapeDoubleQuote()
    ensures EscapeHtml("\"") == "&quot;"
  {
    EscapeHtmlSingle('"');
    ReplaceAllSingle('"', '<', "&lt;");
    ReplaceAllSingle('"', '>', "&gt;");
    ReplaceAllSingle('"', '"', "&quot;");
    EntityIsStable("&quot;");
  }

  lemma EscapeOther(c: char)
    requires c != '&' && c != '<' && c != '>' && c != '"'
    ensures EscapeHtml([c]) == EntityOf(c)
  {
    EscapeHtmlSingle(c);
    ReplaceAllSingle(c, '<', "&lt;");
    ReplaceAllSingle(c, '>', "&gt;");
    ReplaceAllSingle(c, '"', "&quot;");
    ReplaceAllSingle(c, '\'', "&#039;");
  }

  /** The chain of replacements turns one character into its entity: the entities
      introduced by an earlier step contain none of the characters a later step replaces. */
  lemma EscapeHtmlOne(c: char)
    ensures EscapeHtml([c]) == EntityOf(c)
  {
    if c == '&' {
      EscapeAmpersand();
    } else if c == '<' {
      EscapeLess();
    } else if c == '>' {
      EscapeGreater();
    } else if c == '"' {
      EscapeDoubleQuote();
    } else {
      EscapeOther(c);
    }
  }

  /** An entity holds none of `<`, `>`, `"` and `'`, so the later steps keep it. */
  lemma EntityIsStable(e: string)
    requires '<' !in e && '>' !in e && '"' !in e && '\'' !in e
    ensures ReplaceAll(e, '<', "&lt;") == e
    ensures ReplaceAll(e, '>', "&gt;") == e
    ensures ReplaceAll(e, '"', "&quot;") == e
    ensures ReplaceAll(e, '\'', "&#039;") == e
  {
    ReplaceAllAbsent(e, '<', "&lt;");
    ReplaceAllAbsent(e, '>', "&gt;");
    ReplaceAllAbsent(e, '"', "&quot;");
    ReplaceAllAbsent(e, '\'', "&#039;");
  }

  /** The five chained global replacements equal escaping each character on its own. */
  lemma {:induction false} EscapeHtmlIsPerCharacter(s: string)
    ensures EscapeHtml(s) == EscapeEach(s)
  {
    if s != [] {
      var h, t := [s[0]], s[1..];
      assert s == h + t;
      var s1 := ReplaceAll(h, '&', "&amp;");
      var t1 := ReplaceAll(t, '&', "&amp;");
      ReplaceAllAppend(h, t, '&', "&amp;");
      var s2 := ReplaceAll(s1, '<', "&lt;");
      var t2 := ReplaceAll(t1, '<', "&lt;");
      ReplaceAllAppend(s1, t1, '<', "&lt;");
      var s3 := ReplaceAll(s2, '>', "&gt;");
      var t3 := ReplaceAll(t2, '>', "&gt;");
      ReplaceAllAppend(s2, t2, '>', "&gt;");
      var s4 := ReplaceAll(s3, '"', "&quot;");
      var t4 := ReplaceAll(t3, '"', "&quot;");
      ReplaceAllAppend(s3, t3, '"', "&quot;");
      ReplaceAllAppend(s4, t4, '\'', "&#039;");
      assert EscapeHtml(s) == EscapeHtml(h) + EscapeHtml(t);
      EscapeHtmlOne(s[0]);
      EscapeHtmlIsPerCharacter(t);
    }
  }

  /** The five entities `escapeHtml` produces. */
  predicate StartsWithEntity(s: string)
  {
    StartsWith(s, "&amp;") || StartsWith(s, "&lt;") || StartsWith(s, "&gt;") ||
    StartsWith(s, "&quot;") || StartsWith(s, "&#039;")
  }

  lemma {:induction false} EscapeEachAmpersands(s: string)
    ensures forall i :: 0 <= i < |EscapeEach(s)| && EscapeEach(s)[i] == '&' ==>
              StartsWithEntity(EscapeEach(s)[i..])
  {
    if s != [] {
      var e, rest := EntityOf(s[0]), EscapeEach(s[1..]);
      EscapeEachAmpersands(s[1..]);
      forall i | 0 <= i < |e + rest| && (e + rest)[i] == '&'
        ensures StartsWithEntity((e + rest)[i..])
      {
        if i < |e| {
          assert i == 0;
          assert (e + rest)[..|e|] == e;
        } else {
          assert (e + rest)[i..] == rest[i - |e|..];
        }
      }
    }
  }

  /** Every `&` in the output starts one of the five entities: because `&` is replaced first,
      an entity introduced by the chain is never escaped a second time. */
  lemma EscapeHtmlAmpersandsStartEntities(s: string)
    ensures forall i :: 0 <= i < |EscapeHtml(s)| && EscapeHtml(s)[i] == '&' ==>
              StartsWithEntity(EscapeHtml(s)[i..])
  {
    EscapeHtmlIsPerCharacter(s);
    EscapeEachAmpersands(s);
  }

  /** Reference decoder: each entity read back as the character it stands for. */
  function Unescape(s: string): string
    decreases |s|
  {
    if s == [] then []
    else if StartsWith(s, "&amp;") then "&" + Unescape(s[5..])
    else if StartsWith(s, "&lt;") then "<" + Unescape(s[4..])
    else if StartsWith(s, "&gt;") then ">" + Unescape(s[4..])
    else if StartsWith(s, "&quot;") then "\"" + Unescape(s[6..])
    else if StartsWith(s, "&#039;") then "'" + Unescape(s[6..])
    else [s[0]] + Unescape(s[1..])
  }

  /** Decoding reads an entity back as its character and goes on after it. */
  lemma UnescapeEntity(c: char, rest: string)
    ensures Unescape(EntityOf(c) + rest) == [c] + Unescape(rest)
  {
    if c == '&' {
      UnescapeAmpersand(rest);
    } else if c == '<' {
      UnescapeLess(rest);
    } else if c == '>' {
      UnescapeGreater(rest);
    } else if c == '"' {
      UnescapeQuote(rest);
    } else if c == '\'' {
      UnescapeApostrophe(rest);
    } else {
      UnescapePlain(c, rest);
    }
  }

  lemma UnescapeAmpersand(rest: string)
    ensures Unescape("&amp;" + rest) == "&" + Unescape(rest)
  {
    var w := "&amp;" + rest;
    assert w[..5] == "&amp;" && w[5..] == rest;
  }

  lemma UnescapePlain(c: char, rest: string)
    requires c != '&'
    ensures Unescape([c] + rest) == [c] + Unescape(rest)
  {
    var w := [c] + rest;
    assert w[0] == c && w[1..] == rest;
    FirstDiffers(w, "&amp;");
    FirstDiffers(w, "&lt;");
    FirstDiffers(w, "&gt;");
    FirstDiffers(w, "&quot;");
    FirstDiffers(w, "&#039;");
  }

  lemma UnescapeLess(rest: string)
    ensures Unescape("&lt;" + rest) == "<" + Unescape(rest)
  {
    var w := "&lt;" + rest;
    assert w[..4] == "&lt;" && w[4..] == rest;
    assert !StartsWith(w, "&amp;") by { assert w[1] == 'l'; }
  }

  lemma UnescapeGreater(rest: string)
    ensures Unescape("&gt;" + rest) == ">" + Unescape(rest)
  {
    var w := "&gt;" + rest;
    assert w[..4] == "&gt;" && w[4..] == rest;
    assert w[1] == 'g';
    assert !StartsWith(w, "&amp;") && !StartsWith(w, "&lt;");
  }

  lemma UnescapeQuote(rest: string)
    ensures Unescape("&quot;" + rest) == "\"" + Unescape(rest)
  {
    var w := "&quot;" + rest;
    assert w[..6] == "&quot;" && w[6..] == rest;
    assert w[1] == 'q';
    assert !StartsWith(w, "&amp;") && !StartsWith(w, "&lt;") && !StartsWith(w, "&gt;");
  }

  lemma UnescapeApostrophe(rest: string)
    ensures Unescape("&#039;" + rest) == "'" + Unescape(rest)
  {
    var w := "&#039;" + rest;
    assert w[..6] == "&#039;" && w[6..] == rest;
    assert w[1] == '#';
    assert !StartsWith(w, "&amp;") && !StartsWith(w, "&lt;") && !StartsWith(w, "&gt;");
    assert !StartsWith(w, "&quot;");
  }

  lemma {:induction false} UnescapeEscapeEach(s: string)
    ensures Unescape(EscapeEach(s)) == s
  {
    if s != [] {
      UnescapeEntity(s[0], EscapeEach(s[1..]));
      UnescapeEscapeEach(s[1..]);
    }
  }

  /** Escaping loses nothing: decoding the five entities gives the input back. */
  lemma EscapeHtmlRoundTrip(s: string)
    ensures Unescape(EscapeHtml(s)) == s
  {
    EscapeHtmlIsPerCharacter(s);
    UnescapeEscapeEach(s);
  }

  /** A special character's entity is longer than one character; any other stands for itself. */
  lemma EntityShape(c: char)
    ensures IsHtmlSpecial(c) ==> |EntityOf(c)| > 1
    ensures !IsHtmlSpecial(c) ==> EntityOf(c) == [c]
  {
  }

  lemma {:induction false} EscapeEachGrows(s: string)
    ensures |EscapeEach(s)| >= |s|
    ensures (exists i :: 0 <= i < |s| && IsHtmlSpecial(s[i])) ==> |EscapeEach(s)| > |s|
    ensures (forall i :: 0 <= i < |s| ==> !IsHtmlSpecial(s[i])) ==> EscapeEach(s) == s
  {
    if s != [] {
      var rest := s[1..];
      EscapeEachGrows(rest);
      EntityShape(s[0]);
      assert EscapeEach(s) == EntityOf(s[0]) + EscapeEach(rest);
      if exists i :: 0 <= i < |s| && IsHtmlSpecial(s[i]) {
        var i :| 0 <= i < |s| && IsHtmlSpecial(s[i]);
        if i > 0 {
          assert IsHtmlSpecial(rest[i - 1]);
        }
      } else {
        forall i | 0 <= i < |rest| ensures !IsHtmlSpecial(rest[i]) {
          assert rest[i] == s[i + 1];
        }
        assert s == [s[0]] + rest;
      }
    }
  }

  /** `escapeHtml` leaves a string unchanged exactly when it holds none of the five
      special characters; otherwise the output is strictly longer. */
  lemma EscapeHtmlFixpoint(s: string)
    ensures EscapeHtml(s) == s <==> forall i :: 0 <= i < |s| ==> !IsHtmlSpecial(s[i])
  {
    EscapeHtmlIsPerCharacter(s);
    EscapeEachGrows(s);
  }

  // ---------------------------------------------------------------- sanitizeUrl

  /** The schemes `sanitizeUrl` refuses, in the order it tests them. */
  const DangerousProtocols: seq<string> := ["javascript:", "data:", "vbscript:", "file:"]

  /** The `for ... of dangerousProtocols` loop: does `s` start with any of `protocols`? */
  predicate StartsWithAny(s: string, protocols: seq<string>)
  {
    protocols != [] && (StartsWith(s, protocols[0]) || StartsWithAny(s, protocols[1..]))
  }

  /** The string starts with one of the schemes `sanitizeUrl` lets through. */
  predicate HasAllowedPrefix(s: string)
  {
    StartsWith(s, "http://") || StartsWith(s, "https://") || StartsWith(s, "/")
  }

  /** A trimmed URL whose lower-case form starts with a refused scheme. */
  predicate IsDangerous(trimmed: string)
  {
    StartsWithAny(ToLower(trimmed), DangerousProtocols)
  }

  lemma {:induction false} StartsWithAnyIff(s: string, protocols: seq<string>)
    ensures StartsWithAny(s, protocols) <==>
              exists i :: 0 <= i < |protocols| && StartsWith(s, protocols[i])
  {
    if protocols != [] {
      StartsWithAnyIff(s, protocols[1..]);
      if exists i :: 0 <= i < |protocols| && StartsWith(s, protocols[i]) {
        var i :| 0 <= i < |protocols| && StartsWith(s, protocols[i]);
        if i > 0 {
          assert StartsWith(s, protocols[1..][i - 1]);
        }
      }
    }
  }

  /** A string that starts with `h` or `/` is never taken for a refused scheme. */
  lemma NotDangerousByFirstChar(s: string)
    requires s != [] && (s[0] == 'h' || s[0] == '/')
    ensures !IsDangerous(s)
  {
    var lower := ToLower(s);
    assert lower[0] == s[0];
    StartsWithAnyIff(lower, DangerousProtocols);
    forall i | 0 <= i < |DangerousProtocols| ensures !StartsWith(lower, DangerousProtocols[i]) {
      var p := DangerousProtocols[i];
      assert p[0] in "jdvf";
    }
  }

  /** Prefixing a trimmed, scheme-less link with `https://` gives an allowed, trimmed URL. */
  lemma HttpsPrefixed(t: string)
    requires IsTrimmed(t)
    ensures var r := "https://" + t;
      HasAllowedPrefix(r) && !IsDangerous(r) && IsTrimmed(r)
  {
    var r := "https://" + t;
    assert r[..8] == "https://";
    assert r[0] == 'h';
    assert r[|r| - 1] == if t == [] then '/' else t[|t| - 1];
    NotDangerousByFirstChar(r);
  }

  /** `sanitizeUrl`: the result is empty or a non-dangerous URL starting with
      `http://`, `https://` or `/`, with no surrounding white space. */
  function SanitizeUrl(url: string): (r: string)
    ensures r == [] || (HasAllowedPrefix(r) && !IsDangerous(r))
    ensures IsTrimmed(r)
  {
    if url == [] then []
    else
      var trimmed := Trim(url);
      if IsDangerous(trimmed) then []
      else if HasAllowedPrefix(trimmed) then
        trimmed
      else if !Includes(trimmed, "://") then
        HttpsPrefixed(trimmed);
        "https://" + trimmed
      else []
  }

  /** When `sanitizeUrl` gives up: empty input, a refused scheme after trimming, or a
      scheme other than http and https; and what it returns otherwise. */
  lemma SanitizeUrlCases(url: string)
    ensures url == [] ==> SanitizeUrl(url) == []
    ensures url != [] && IsDangerous(Trim(url)) ==> SanitizeUrl(url) == []
    ensures url != [] && !IsDangerous(Trim(url)) && HasAllowedPrefix(Trim(url)) ==>
              SanitizeUrl(url) == Trim(url)
    ensures url != [] && !IsDangerous(Trim(url)) && !HasAllowedPrefix(Trim(url)) ==>
              SanitizeUrl(url) == (if Includes(Trim(url), "://") then [] else "https://" + Trim(url))
  {
  }

  /** Sanitising an already sanitised URL changes nothing. */
  lemma SanitizeUrlIdempotent(url: string)
    ensures SanitizeUrl(SanitizeUrl(url)) == SanitizeUrl(url)
  {
    var r := SanitizeUrl(url);
    if r != [] {
      TrimOfTrimmed(r);
      assert Trim(r) == r;
    }
  }

  /** A URL made only of white space is not refused: it becomes the bare `https://`. */
  lemma SanitizeUrlBlank(url: string)
    requires url != [] && forall i :: 0 <= i < |url| ==> IsTrimmable(url[i])
    ensures SanitizeUrl(url) == "https://"
  {
    assert Trim(url) == [];
    assert !Includes([], "://");
    StartsWithAnyIff([], DangerousProtocols);
  }

  // ---------------------------------------------------------------- sanitizeText

  /** `s.slice(0, end)`: a negative `end` counts from the end of the string. */
  function SliceTo(s: string, end: int): (r: string)
    ensures |r| <= |s| && r == s[..|r|]
    ensures end >= 0 ==> |r| == if end < |s| then end else |s|
    ensures end < 0 ==> |r| == if |s| + end > 0 then |s| + end else 0
  {
    if end >= 0 then (if end < |s| then s[..end] else s)
    else if |s| + end > 0 then s[..|s| + end] else []
  }

  /** The characters the pattern `[\x00-\x1F\x7F]` matches. */
  predicate IsControl(c: char)
  {
    c as int <= 0x1F || c as int == 0x7F
  }

  /** The characters `sanitizeText` keeps. */
  predicate NotControl(c: char)
  {
    !IsControl(c)
  }

  /** `s.replace(/[\x00-\x1F\x7F]/g, '')`. */
  function RemoveControl(s: string): (r: string)
    ensures |r| <= |s|
    ensures forall i :: 0 <= i < |r| ==> !IsControl(r[i])
    ensures IsSubsequence(r, s)
    ensures (forall i :: 0 <= i < |s| ==> !IsControl(s[i])) ==> r == s
    ensures forall c :: c in s && !IsControl(c) ==> multiset(r)[c] == multiset(s)[c]
  {
    var r := Filter(s, NotControl);
    FilterIsSubsequence(s, NotControl);
    FilterCounts(s, NotControl);
    FilterKeepsAll(s);
    forall i | 0 <= i < |r| ensures !IsControl(r[i]) {
      assert r[i] in r;
    }
    r
  }

  lemma {:induction false} FilterKeepsAll(s: string)
    ensures (forall i :: 0 <= i < |s| ==> !IsControl(s[i])) ==> Filter(s, NotControl) == s
  {
    if s != [] {
      FilterKeepsAll(s[1..]);
    }
  }

  /** The default `maxLength` of `sanitizeText`. */
  const DefaultMaxTextLength := 5000

  /** `sanitizeText`: truncate to `maxLength`, then drop control characters. */
  function SanitizeText(text: string, maxLength: int := DefaultMaxTextLength): (r: string)
    ensures text == [] ==> r == []
    ensures maxLength >= 0 ==> |r| <= maxLength
    ensures |r| <= |text|
    ensures forall i :: 0 <= i < |r| ==> !IsControl(r[i])
    ensures IsSubsequence(r, text)
    ensures IsSubsequence(r, SliceTo(text, maxLength))
    ensures forall c :: c in SliceTo(text, maxLength) && !IsControl(c) ==>
              multiset(r)[c] == multiset(SliceTo(text, maxLength))[c]
    ensures r == RemoveControl(SliceTo(text, maxLength))
  {
    if text == [] then []
    else
      var truncated := SliceTo(text, maxLength);
      var r := RemoveControl(truncated);
      SubsequenceOfPrefix(r, truncated, text);
      r
  }

  lemma {:induction false} SubsequenceOfPrefix(r: string, p: string, s: string)
    requires IsSubsequence(r, p) && |p| <= |s| && p == s[..|p|]
    ensures IsSubsequence(r, s)
    decreases |p|
  {
    if r != [] {
      assert p != [];
      assert s[1..][..|p| - 1] == p[1..];
      if r[0] == p[0] {
        SubsequenceOfPrefix(r[1..], p[1..], s[1..]);
      } else {
        SubsequenceOfPrefix(r, p[1..], s[1..]);
      }
    }
  }

  /** With a non-negative bound, `sanitizeText` leaves a text unchanged exactly when the text
      is within the bound and holds no control character. */
  lemma SanitizeTextFixpoint(text: string, maxLength: int)
    requires maxLength >= 0
    ensures SanitizeText(text, maxLength) == text <==>
              |text| <= maxLength && forall i :: 0 <= i < |text| ==> !IsControl(text[i])
  {
    if |text| <= maxLength && forall i :: 0 <= i < |text| ==> !IsControl(text[i]) {
      if text != [] {
        assert SliceTo(text, maxLength) == text;
      }
    }
  }

  /** With a non-negative bound, `sanitizeText` is idempotent. */
  lemma SanitizeTextIdempotent(text: string, maxLength: int)
    requires maxLength >= 0
    ensures SanitizeText(SanitizeText(text, maxLength), maxLength) == SanitizeText(text, maxLength)
  {
    SanitizeTextFixpoint(SanitizeText(text, maxLength), maxLength);
  }

  // ---------------------------------------------------------------- sanitizeUrls

  /** The most links `sanitizeUrls` keeps. */
  const MaxUrls := 10

  /** `.map(url => sanitizeUrl(url))`. */
  function SanitizeEach(urls: seq<string>): (r: seq<string>)
    ensures |r| == |urls|
    ensures forall i :: 0 <= i < |urls| ==> r[i] == SanitizeUrl(urls[i])
  {
    seq(|urls|, i requires 0 <= i < |urls| => SanitizeUrl(urls[i]))
  }

  /** The non-empty results of `.map(sanitizeUrl)`, in order. */
  function SanitizedNonEmpty(urls: seq<string>): (r: seq<string>)
    ensures forall x :: x in r ==> x != [] && exists j :: 0 <= j < |urls| && x == SanitizeUrl(urls[j])
    ensures IsSubsequence(r, SanitizeEach(urls))
    ensures forall x :: x in SanitizeEach(urls) && x != [] ==> multiset(r)[x] == multiset(SanitizeEach(urls))[x]
  {
    var sanitized := SanitizeEach(urls);
    FilterIsSubsequence(sanitized, (u: string) => u != []);
    FilterCounts(sanitized, (u: string) => u != []);
    var r := Filter(sanitized, (u: string) => u != []);
    forall x | x in r ensures x != [] && exists j :: 0 <= j < |urls| && x == SanitizeUrl(urls[j]) {
      SanitizedComesFromInput(urls, x);
    }
    r
  }

  lemma SanitizedComesFromInput(urls: seq<string>, x: string)
    requires x in SanitizeEach(urls)
    ensures exists j :: 0 <= j < |urls| && x == SanitizeUrl(urls[j])
  {
    var sanitized := SanitizeEach(urls);
    var j :| 0 <= j < |sanitized| && sanitized[j] == x;
    assert x == SanitizeUrl(urls[j]);
  }

  /** `urls.map(sanitizeUrl).filter(url => url !== '').slice(0, 10)`. */
  function SanitizeUrls(urls: seq<string>): (r: seq<string>)
    ensures |r| <= MaxUrls
    ensures forall i :: 0 <= i < |r| ==> r[i] != [] && HasAllowedPrefix(r[i]) && !IsDangerous(r[i])
    ensures forall i :: 0 <= i < |r| ==> exists j :: 0 <= j < |urls| && r[i] == SanitizeUrl(urls[j])
  {
    var kept := SanitizedNonEmpty(urls);
    var r := if |kept| <= MaxUrls then kept else kept[..MaxUrls];
    assert forall i :: 0 <= i < |r| ==> r[i] in kept;
    r
  }

  /** The links kept are in the order of the input they came from. */
  lemma SanitizeUrlsKeepsOrder(urls: seq<string>)
    ensures IsSubsequence(SanitizeUrls(urls), SanitizeEach(urls))
  {
    var kept := SanitizedNonEmpty(urls);
    var r := SanitizeUrls(urls);
    assert r == kept[..|r|];
    PrefixOfSubsequence(kept, SanitizeEach(urls), |r|);
  }

  /** Fewer than eleven usable links are all kept. */
  lemma SanitizeUrlsKeepsAllUsable(urls: seq<string>, j: nat)
    requires j < |urls| && SanitizeUrl(urls[j]) != []
    requires |SanitizedNonEmpty(urls)| <= MaxUrls
    ensures SanitizeUrl(urls[j]) in SanitizeUrls(urls)
  {
    var sanitized := SanitizeEach(urls);
    assert sanitized[j] == SanitizeUrl(urls[j]);
    FilterKeepsEverySelected(sanitized, (u: string) => u != [], sanitized[j]);
  }

  lemma {:induction false} SanitizeEachFixes(urls: seq<string>)
    requires forall i :: 0 <= i < |urls| ==> urls[i] != [] && SanitizeUrl(urls[i]) == urls[i]
    ensures Filter(SanitizeEach(urls), (u: string) => u != []) == urls
  {
    if urls != [] {
      assert SanitizeEach(urls)[1..] == SanitizeEach(urls[1..]);
      SanitizeEachFixes(urls[1..]);
    }
  }

  /** Sanitising an already sanitised list of links changes nothing. */
  lemma SanitizeUrlsIdempotent(urls: seq<string>)
    ensures SanitizeUrls(SanitizeUrls(urls)) == SanitizeUrls(urls)
  {
    var r := SanitizeUrls(urls);
    forall i | 0 <= i < |r| ensures r[i] != [] && SanitizeUrl(r[i]) == r[i] {
      var j :| 0 <= j < |urls| && r[i] == SanitizeUrl(urls[j]);
      SanitizeUrlIdempotent(urls[j]);
    }
    SanitizeEachFixes(r);
    assert SanitizedNonEmpty(r) == r;
  }

  // ---------------------------------------------------------------- form data

  /** The request body of a gift form, as far as `sanitizeGiftData` reads it; a missing
      field is `None`. `quantity` is what `parseInt` makes of the field, `None` for NaN. */
  datatype GiftInput = GiftInput(
    name: Option<string>,
    description: Option<string>,
    links: Option<seq<string>>,
    priority: Option<string>,
    quantity: Option<int>)

  datatype GiftData = GiftData(
    name: string,
    description: string,
    links: seq<string>,
    priority: string,
    quantity: int)

  const Priorities: seq<string> := ["FAIBLE", "MOYEN", "HAUT", "TRES_HAUT"]
  const DefaultPriority := "MOYEN"
  const MaxNameLength := 200
  const MaxDescriptionLength := 2000
  const MinQuantity := 1
  const MaxQuantity := 100

  /** `Math.max(1, Math.min(100, q || 1))`: a NaN or a zero reads as 1. */
  function ClampQuantity(parsed: Option<int>): (q: int)
    ensures MinQuantity <= q <= MaxQuantity
    ensures parsed.Some? && MinQuantity <= parsed.value <= MaxQuantity ==> q == parsed.value
    ensures parsed.None? || parsed.value <= MinQuantity ==> q == MinQuantity
    ensures parsed.Some? && parsed.value >= MaxQuantity ==> q == MaxQuantity
  {
    var n := if parsed.None? || parsed.value == 0 then 1 else parsed.value;
    var capped := if n < MaxQuantity then n else MaxQuantity;
    if capped > MinQuantity then capped else MinQuantity
  }

  /** `sanitizeGiftData`. */
  function SanitizeGiftData(data: GiftInput): (r: GiftData)
    ensures |r.name| <= MaxNameLength && |r.description| <= MaxDescriptionLength
    ensures |r.links| <= MaxUrls
    ensures r.priority in Priorities
    ensures data.priority.Some? && data.priority.value in Priorities ==> r.priority == data.priority.value
    ensures !(data.priority.Some? && data.priority.value in Priorities) ==> r.priority == DefaultPriority
    ensures MinQuantity <= r.quantity <= MaxQuantity
    ensures data.quantity.Some? && MinQuantity <= data.quantity.value <= MaxQuantity ==>
              r.quantity == data.quantity.value
    ensures data.quantity.None? ==> r.quantity == MinQuantity
    ensures r.name == SanitizeText(data.name.GetOr(""), MaxNameLength)
    ensures r.description == SanitizeText(data.description.GetOr(""), MaxDescriptionLength)
    ensures r.links == SanitizeUrls(data.links.GetOr([]))
    ensures r.quantity == ClampQuantity(data.quantity)
  {
    GiftData(
      SanitizeText(data.name.GetOr(""), MaxNameLength),
      SanitizeText(data.description.GetOr(""), MaxDescriptionLength),
      SanitizeUrls(data.links.GetOr([])),
      if data.priority.Some? && data.priority.value in Priorities then data.priority.value
      else DefaultPriority,
      ClampQuantity(data.quantity))
  }

  /** The request body of a list form; `isPublic` is `None` when missing. */
  datatype ListInput = ListInput(title: Option<string>, description: Option<string>, isPublic: Option<bool>)

  datatype ListData = ListData(title: string, description: string, isPublic: bool)

  /** `sanitizeListData`. */
  function SanitizeListData(data: ListInput): (r: ListData)
    ensures |r.title| <= MaxNameLength && |r.description| <= MaxDescriptionLength
    ensures forall i :: 0 <= i < |r.title| ==> !IsControl(r.title[i])
    ensures forall i :: 0 <= i < |r.description| ==> !IsControl(r.description[i])
    ensures r.isPublic <==> data.isPublic == Some(true)
    ensures r.title == SanitizeText(data.title.GetOr(""), MaxNameLength)
    ensures r.description == SanitizeText(data.description.GetOr(""), MaxDescriptionLength)
  {
    ListData(
      SanitizeText(data.title.GetOr(""), MaxNameLength),
      SanitizeText(data.description.GetOr(""), MaxDescriptionLength),
      data.isPublic == Some(true))
  }
}
