// The XML escaping of src/platform_config.rs: five successive whole-string
// replacements against one simultaneous per-character map.
module PlatformConfig {
  // Every occurrence of `c` replaced by `by`.
  function Replace(s: string, c: char, text: string): string {
    if s == "" then ""
    else (if s[0] == c then text else [s[0]]) + Replace(s[1..], c, text)
  }

  function XmlEscape(value: string): string {
    LaterPasses(Replace(value, '&', "&amp;"))
  }

  function LaterPasses(s: string): string {
    Replace(Replace(Replace(Replace(s, '<', "&lt;"), '>', "&gt;"), '"', "&quot;"), '\'', "&apos;")
  }

  // ----- The simple form -----

  function Entity(c: char): string {
    match c
    case '&' => "&amp;"
    case '<' => "&lt;"
    case '>' => "&gt;"
    case '"' => "&quot;"
    case '\'' => "&apos;"
    case _ => [c]
  }

  function EscapeEach(value: string): string {
    if value == "" then "" else Entity(value[0]) + EscapeEach(value[1..])
  }

  lemma {:induction false} ReplaceDistributes(s: string, t: string, c: char, text: string)
    ensures Replace(s + t, c, text) == Replace(s, c, text) + Replace(t, c, text)
  {
    if s == "" {
      assert s + t == t;
    } else {
      assert (s + t)[1..] == s[1..] + t;
      ReplaceDistributes(s[1..], t, c, text);
    }
  }

  lemma EscapeDistributes(s: string, t: string)
    ensures XmlEscape(s + t) == XmlEscape(s) + XmlEscape(t)
  {
    var s1, t1 := Replace(s, '&', "&amp;"), Replace(t, '&', "&amp;");
    var s2, t2 := Replace(s1, '<', "&lt;"), Replace(t1, '<', "&lt;");
    var s3, t3 := Replace(s2, '>', "&gt;"), Replace(t2, '>', "&gt;");
    var s4, t4 := Replace(s3, '"', "&quot;"), Replace(t3, '"', "&quot;");
    ReplaceDistributes(s, t, '&', "&amp;");
    ReplaceDistributes(s1, t1, '<', "&lt;");
    ReplaceDistributes(s2, t2, '>', "&gt;");
    ReplaceDistributes(s3, t3, '"', "&quot;");
    ReplaceDistributes(s4, t4, '\'', "&apos;");
  }

  lemma {:induction false} ReplaceAbsent(s: string, c: char, text: string)
    requires c !in s
    ensures Replace(s, c, text) == s
  {
    if s != "" {
      ReplaceAbsent(s[1..], c, text);
    }
  }

  lemma ReplaceOne(c: char, text: string)
    ensures Replace([c], c, text) == text
  {
    assert [c][1..] == "";
  }

  // The last four passes leave text without their characters alone.
  lemma PassesSkip(s: string)
    requires '<' !in s && '>' !in s && '"' !in s && '\'' !in s
    ensures LaterPasses(s) == s
  {
    ReplaceAbsent(s, '<', "&lt;");
    ReplaceAbsent(s, '>', "&gt;");
    ReplaceAbsent(s, '"', "&quot;");
    ReplaceAbsent(s, '\'', "&apos;");
  }

  // Later passes leave what an earlier pass wrote alone.
  lemma EscapeOne(c: char)
    ensures XmlEscape([c]) == Entity(c)
  {
    if c == '&' {
      ReplaceOne(c, "&amp;");
      PassesSkip("&amp;");
    } else {
      ReplaceAbsent([c], '&', "&amp;");
      if c == '<' || c == '>' {
        EscapeAngle(c);
      } else if c == '"' || c == '\'' {
        EscapeQuote(c);
      } else {
        PassesSkip([c]);
      }
    }
  }

  lemma EscapeAngle(c: char)
    requires c == '<' || c == '>'
    ensures LaterPasses([c]) == Entity(c)
  {
    var e := Entity(c);
    if c == '<' {
      ReplaceOne(c, e);
      ReplaceAbsent(e, '>', "&gt;");
    } else {
      ReplaceAbsent([c], '<', "&lt;");
      ReplaceOne(c, e);
    }
    ReplaceAbsent(e, '"', "&quot;");
    ReplaceAbsent(e, '\'', "&apos;");
  }

  lemma EscapeQuote(c: char)
    requires c == '"' || c == '\''
    ensures LaterPasses([c]) == Entity(c)
  {
    var e := Entity(c);
    ReplaceAbsent([c], '<', "&lt;");
    ReplaceAbsent([c], '>', "&gt;");
    ReplaceOne(c, e);
    if c == '"' {
      ReplaceAbsent(e, '\'', "&apos;");
    } else {
      ReplaceAbsent([c], '"', "&quot;");
    }
  }

  // The five passes, ampersand first, are one simultaneous map.
  lemma {:induction false} FivePassesAreOneMap(value: string)
    ensures XmlEscape(value) == EscapeEach(value)
  {
    if value != "" {
      assert value == [value[0]] + value[1..];
      EscapeDistributes([value[0]], value[1..]);
      EscapeOne(value[0]);
      FivePassesAreOneMap(value[1..]);
    }
  }

  // ----- Reading escaped text back (section 4.6 of XML 1.0) -----

  function Unescape(s: string): string {
    if s == "" then ""
    else if "&amp;" <= s then "&" + Unescape(s[5..])
    else if "&lt;" <= s then "<" + Unescape(s[4..])
    else if "&gt;" <= s then ">" + Unescape(s[4..])
    else if "&quot;" <= s then "\"" + Unescape(s[6..])
    else if "&apos;" <= s then "'" + Unescape(s[6..])
    else [s[0]] + Unescape(s[1..])
  }

  lemma UnescapeEntity(c: char, rest: string)
    ensures Unescape(Entity(c) + rest) == [c] + Unescape(rest)
  {
    var s := Entity(c) + rest;
    assert s[|Entity(c)|..] == rest;
    assert Entity(c) <= s;
    assert s[0] == Entity(c)[0];
    if c == '<' || c == '>' || c == '"' || c == '\'' {
      assert s[1] == Entity(c)[1] && s[2] == Entity(c)[2];
    }
  }

  lemma {:induction false} EscapeEachRoundTrip(value: string)
    ensures Unescape(EscapeEach(value)) == value
  {
    if value != "" {
      UnescapeEntity(value[0], EscapeEach(value[1..]));
      EscapeEachRoundTrip(value[1..]);
    }
  }

  lemma UnescapeInvertsEscape(value: string)
    ensures Unescape(XmlEscape(value)) == value
  {
    FivePassesAreOneMap(value);
    EscapeEachRoundTrip(value);
  }

  // Nothing in escaped text can open a tag, close one, or end an attribute
  // value, and every ampersand starts one of the five entities.
  ghost predicate Inert(s: string) {
    forall i :: 0 <= i < |s| ==> InertAt(s, i)
  }

  ghost predicate InertAt(s: string, i: nat)
    requires i < |s|
  {
    && s[i] != '<' && s[i] != '>' && s[i] != '"' && s[i] != '\''
    && (s[i] == '&' ==> exists c :: HasEntity(c) && Entity(c) <= s[i..])
  }

  predicate HasEntity(c: char) {
    c == '&' || c == '<' || c == '>' || c == '"' || c == '\''
  }

  lemma EscapedIsInert(value: string)
    ensures Inert(XmlEscape(value))
  {
    FivePassesAreOneMap(value);
    EscapedEachIsInert(value);
  }

  lemma {:induction false} EscapedEachIsInert(value: string)
    ensures Inert(EscapeEach(value))
  {
    if value != "" {
      EscapedEachIsInert(value[1..]);
      var e, rest := Entity(value[0]), EscapeEach(value[1..]);
      forall i | 0 <= i < |e + rest| ensures InertAt(e + rest, i) {
        if i < |e| {
          EntityIsInert(value[0], rest, i);
        } else {
          LaterIsInert(e, rest, i);
        }
      }
    }
  }

  lemma EntityIsInert(c: char, rest: string, i: nat)
    requires i < |Entity(c)|
    ensures InertAt(Entity(c) + rest, i)
  {
    var s := Entity(c) + rest;
    assert s[i] == Entity(c)[i];
    if s[i] == '&' {
      AmpersandStartsEntity(c, i);
      assert s[0..] == s;
    }
  }

  lemma AmpersandStartsEntity(c: char, i: nat)
    requires i < |Entity(c)| && Entity(c)[i] == '&'
    ensures i == 0 && HasEntity(c)
  {}

  lemma LaterIsInert(e: string, rest: string, i: nat)
    requires |e| <= i < |e + rest| && InertAt(rest, i - |e|)
    ensures InertAt(e + rest, i)
  {
    assert (e + rest)[i..] == rest[i - |e|..];
  }
}
