/** The client's `escapeHtml`: five chained global replacements, ampersand
    first, applied to the string form of a value (null and undefined give the
    empty string). */
module HtmlEscape {

  /** The values `escapeHtml` is called with: undefined, null or a string. */
  datatype JsValue = Undefined | Null | Str(s: string)

  /** `s.replace(/c/g, with)`: every occurrence of `c` replaced by `with`. */
  function ReplaceAll(s: string, c: char, with: string): string
  {
    if s == [] then [] else (if s[0] == c then with else [s[0]]) + ReplaceAll(s[1..], c, with)
  }

  /** The replacement chain, in the order the source applies it. */
  function ReplaceSpecials(s: string): string
  {
    ReplaceAll(ReplaceAll(ReplaceAll(ReplaceAll(ReplaceAll(
      s, '&', "&amp;"), '<', "&lt;"), '>', "&gt;"), '"', "&quot;"), '\'', "&#039;")
  }

  /** The characters that carry meaning in markup or attribute values. */
  predicate Special(c: char)
  {
    c == '&' || c == '<' || c == '>' || c == '"' || c == '\''
  }

  /** The entity each special character stands for; other characters stand for themselves. */
  function EntityFor(c: char): string
  {
    if c == '&' then "&amp;"
    else if c == '<' then "&lt;"
    else if c == '>' then "&gt;"
    else if c == '"' then "&quot;"
    else if c == '\'' then "&#039;"
    else [c]
  }

  /** Reference definition: every character replaced independently by its entity. */
  function Escaped(s: string): string
  {
    if s == [] then [] else EntityFor(s[0]) + Escaped(s[1..])
  }

  predicate StartsWith(s: string, prefix: string)
  {
    |prefix| <= |s| && s[..|prefix|] == prefix
  }

  /** `t` begins with one of the five entities. */
  predicate StartsWithEntity(t: string)
  {
    StartsWith(t, "&amp;") || StartsWith(t, "&lt;") || StartsWith(t, "&gt;")
    || StartsWith(t, "&quot;") || StartsWith(t, "&#039;")
  }

  /** Decoding of the five entities, left to right; anything else is kept. */
  function Unescape(t: string): string
    decreases |t|
  {
    if t == [] then []
    else if StartsWith(t, "&amp;") then "&" + Unescape(t[5..])
    else if StartsWith(t, "&lt;") then "<" + Unescape(t[4..])
    else if StartsWith(t, "&gt;") then ">" + Unescape(t[4..])
    else if StartsWith(t, "&quot;") then "\"" + Unescape(t[6..])
    else if StartsWith(t, "&#039;") then "'" + Unescape(t[6..])
    else [t[0]] + Unescape(t[1..])
  }

  /** `escapeHtml(unsafe)`: null and undefined become the empty string, and no
      `<`, `>`, `"` or `'` survives in the result. */
  function EscapeHtml(v: JsValue): (r: string)
    ensures v.Null? || v.Undefined? ==> r == ""
    ensures forall i :: 0 <= i < |r| ==> r[i] != '<' && r[i] != '>' && r[i] != '"' && r[i] != '\''
  {
    match v
    case Undefined => ""
    case Null => ""
    case Str(s) =>
      ChainMatchesReference(s);
      EscapedHasNoMarkup(s);
      ReplaceSpecials(s)
  }

  /** `escapeHtml` on a string. */
  function Escape(s: string): string
  {
    EscapeHtml(Str(s))
  }

  lemma {:induction false} ReplaceAllAppend(a: string, b: string, c: char, with: string)
    ensures ReplaceAll(a + b, c, with) == ReplaceAll(a, c, with) + ReplaceAll(b, c, with)
  {
    if a != [] {
      assert (a + b)[1..] == a[1..] + b;
      ReplaceAllAppend(a[1..], b, c, with);
    } else {
      assert a + b == b;
    }
  }

  lemma {:induction false} ReplaceAllAbsent(s: string, c: char, with: string)
    requires c !in s
    ensures ReplaceAll(s, c, with) == s
  {
    if s != [] {
      ReplaceAllAbsent(s[1..], c, with);
    }
  }

  lemma ReplaceAllOne(x: char, c: char, with: string)
    ensures ReplaceAll([x], c, with) == if x == c then with else [x]
  {
    assert [x][1..] == [];
  }

  /** The chain stops changing a string once the characters still to be
      replaced are absent from it. */
  lemma AfterAmpersand(t: string)
    requires '<' !in t && '>' !in t && '"' !in t && '\'' !in t
    ensures ReplaceAll(ReplaceAll(ReplaceAll(ReplaceAll(t, '<', "&lt;"), '>', "&gt;"), '"', "&quot;"), '\'', "&#039;") == t
  {
    ReplaceAllAbsent(t, '<', "&lt;");
    ReplaceAllAbsent(t, '>', "&gt;");
    ReplaceAllAbsent(t, '"', "&quot;");
    ReplaceAllAbsent(t, '\'', "&#039;");
  }

  lemma AfterLess(t: string)
    requires '>' !in t && '"' !in t && '\'' !in t
    ensures ReplaceAll(ReplaceAll(ReplaceAll(t, '>', "&gt;"), '"', "&quot;"), '\'', "&#039;") == t
  {
    ReplaceAllAbsent(t, '>', "&gt;");
    ReplaceAllAbsent(t, '"', "&quot;");
    ReplaceAllAbsent(t, '\'', "&#039;");
  }

  lemma AfterGreater(t: string)
    requires '"' !in t && '\'' !in t
    ensures ReplaceAll(ReplaceAll(t, '"', "&quot;"), '\'', "&#039;") == t
  {
    ReplaceAllAbsent(t, '"', "&quot;");
    ReplaceAllAbsent(t, '\'', "&#039;");
  }

  /** On one character the chain yields exactly that character's entity: no
      later replacement touches the `&`, letters, digits, `#` and `;` that an
      earlier one introduced. */
  lemma ChainOnChar(x: char)
    ensures ReplaceSpecials([x]) == EntityFor(x)
  {
    ReplaceAllOne(x, '&', "&amp;");
    if x == '&' {
      AfterAmpersand("&amp;");
      return;
    }
    ReplaceAllOne(x, '<', "&lt;");
    if x == '<' {
      AfterLess("&lt;");
      return;
    }
    ReplaceAllOne(x, '>', "&gt;");
    if x == '>' {
      AfterGreater("&gt;");
      return;
    }
    ReplaceAllOne(x, '"', "&quot;");
    if x == '"' {
      ReplaceAllAbsent("&quot;", '\'', "&#039;");
      return;
    }
    ReplaceAllOne(x, '\'', "&#039;");
  }

  lemma ChainAppend(a: string, b: string)
    ensures ReplaceSpecials(a + b) == ReplaceSpecials(a) + ReplaceSpecials(b)
  {
    var a1, b1 := ReplaceAll(a, '&', "&amp;"), ReplaceAll(b, '&', "&amp;");
    var a2, b2 := ReplaceAll(a1, '<', "&lt;"), ReplaceAll(b1, '<', "&lt;");
    var a3, b3 := ReplaceAll(a2, '>', "&gt;"), ReplaceAll(b2, '>', "&gt;");
    var a4, b4 := ReplaceAll(a3, '"', "&quot;"), ReplaceAll(b3, '"', "&quot;");
    ReplaceAllAppend(a, b, '&', "&amp;");
    ReplaceAllAppend(a1, b1, '<', "&lt;");
    ReplaceAllAppend(a2, b2, '>', "&gt;");
    ReplaceAllAppend(a3, b3, '"', "&quot;");
    ReplaceAllAppend(a4, b4, '\'', "&#039;");
  }

  /** Because ampersand is replaced first, the chain of global replacements
      equals escaping each character on its own: no entity is escaped twice. */
  lemma {:induction false} ChainMatchesReference(s: string)
    ensures ReplaceSpecials(s) == Escaped(s)
  {
    if s != [] {
      assert s == [s[0]] + s[1..];
      ChainAppend([s[0]], s[1..]);
      ChainOnChar(s[0]);
      ChainMatchesReference(s[1..]);
    }
  }

  lemma {:induction false} EscapedHasNoMarkup(s: string)
    ensures forall i :: 0 <= i < |Escaped(s)| ==>
      var c := Escaped(s)[i]; c != '<' && c != '>' && c != '"' && c != '\''
  {
    if s != [] {
      EscapedHasNoMarkup(s[1..]);
      var e, rest := EntityFor(s[0]), Escaped(s[1..]);
      assert Escaped(s) == e + rest;
      forall i | 0 <= i < |e + rest|
        ensures (e + rest)[i] != '<' && (e + rest)[i] != '>' && (e + rest)[i] != '"' && (e + rest)[i] != '\''
      {
        if i >= |e| {
          assert (e + rest)[i] == rest[i - |e|];
        }
      }
    }
  }

  /** A string without special characters is left as it is. */
  lemma {:induction false} PlainUnchanged(s: string)
    requires forall i :: 0 <= i < |s| ==> !Special(s[i])
    ensures Escape(s) == s
  {
    ChainMatchesReference(s);
    EscapedPlain(s);
  }

  lemma {:induction false} EscapedPlain(s: string)
    requires forall i :: 0 <= i < |s| ==> !Special(s[i])
    ensures Escaped(s) == s
  {
    if s != [] {
      EscapedPlain(s[1..]);
      assert s == [s[0]] + s[1..];
    }
  }

  /** An ampersand in the output always opens one of the five entities. */
  lemma {:induction false} AmpersandsOpenEntities(s: string)
    ensures forall i :: 0 <= i < |Escape(s)| && Escape(s)[i] == '&' ==> StartsWithEntity(Escape(s)[i..])
  {
    ChainMatchesReference(s);
    EscapedAmpersands(s);
  }

  lemma {:induction false} EscapedAmpersands(s: string)
    ensures forall i :: 0 <= i < |Escaped(s)| && Escaped(s)[i] == '&' ==> StartsWithEntity(Escaped(s)[i..])
  {
    if s != [] {
      EscapedAmpersands(s[1..]);
      var e, rest := EntityFor(s[0]), Escaped(s[1..]);
      var t := e + rest;
      assert Escaped(s) == t;
      forall i | 0 <= i < |t| && t[i] == '&' ensures StartsWithEntity(t[i..]) {
        if i >= |e| {
          assert t[i..] == rest[i - |e|..];
        } else {
          assert i == 0;
          assert t[..|e|] == e;
        }
      }
    }
  }

  /** A string that differs from `prefix` at position `i` does not start with it. */
  lemma DiffersAt(t: string, prefix: string, i: nat)
    requires i < |prefix| && (i < |t| ==> t[i] != prefix[i])
    ensures !StartsWith(t, prefix)
  {
    if |prefix| <= |t| {
      assert t[..|prefix|][i] == t[i];
    }
  }

  lemma StartsWithPrefix(p: string, rest: string)
    ensures StartsWith(p + rest, p) && (p + rest)[|p|..] == rest
  {
    assert (p + rest)[..|p|] == p;
  }

  /** Decoding consumes the entity of `x` at the front and gives back `x`. */
  lemma UnescapeEntity(x: char, rest: string)
    ensures Unescape(EntityFor(x) + rest) == [x] + Unescape(rest)
  {
    var e := EntityFor(x);
    var t := e + rest;
    StartsWithPrefix(e, rest);
    assert t[0] == e[0];
    if !Special(x) {
      DiffersAt(t, "&amp;", 0);
      DiffersAt(t, "&lt;", 0);
      DiffersAt(t, "&gt;", 0);
      DiffersAt(t, "&quot;", 0);
      DiffersAt(t, "&#039;", 0);
    } else if x != '&' {
      assert t[1] == e[1];
      DiffersAt(t, "&amp;", 1);
      if x != '<' {
        DiffersAt(t, "&lt;", 1);
        if x != '>' {
          DiffersAt(t, "&gt;", 1);
          if x != '"' {
            DiffersAt(t, "&quot;", 1);
          }
        }
      }
    }
  }

  lemma {:induction false} UnescapeEscaped(s: string)
    ensures Unescape(Escaped(s)) == s
  {
    if s != [] {
      UnescapeEntity(s[0], Escaped(s[1..]));
      UnescapeEscaped(s[1..]);
      assert s == [s[0]] + s[1..];
    }
  }

  /** Decoding the five entities in the output gives back the input. */
  lemma RoundTrip(s: string)
    ensures Unescape(Escape(s)) == s
  {
    ChainMatchesReference(s);
    UnescapeEscaped(s);
  }

  /** Different strings escape differently. */
  lemma EscapeInjective(a: string, b: string)
    requires Escape(a) == Escape(b)
    ensures a == b
  {
    RoundTrip(a);
    RoundTrip(b);
  }

  /** Escaping never shortens a string, and a special character makes the
      result longer and puts an ampersand in it. */
  lemma {:induction false} EscapedGrows(s: string)
    ensures |Escaped(s)| >= |s|
    ensures (exists i :: 0 <= i < |s| && Special(s[i])) ==> |Escaped(s)| > |s| && '&' in Escaped(s)
  {
    if s != [] {
      EscapedGrows(s[1..]);
      assert Escaped(s) == EntityFor(s[0]) + Escaped(s[1..]);
      if Special(s[0]) {
        assert Escaped(s)[0] == '&';
      } else if exists i :: 0 <= i < |s| && Special(s[i]) {
        var i :| 0 <= i < |s| && Special(s[i]);
        assert s[1..][i - 1] == s[i];
      }
    }
  }

  /** Escaping leaves a string unchanged exactly when it holds none of the
      five special characters. */
  lemma EscapeFixedIff(s: string)
    ensures Escape(s) == s <==> forall i :: 0 <= i < |s| ==> !Special(s[i])
  {
    ChainMatchesReference(s);
    EscapedGrows(s);
    if forall i :: 0 <= i < |s| ==> !Special(s[i]) {
      PlainUnchanged(s);
    }
  }

  /** There is no protection against escaping twice: once a string held a
      special character, escaping its escaped form changes it again, since
      the ampersands of its entities are escaped in turn. */
  lemma EscapeTwiceDiffers(s: string)
    requires exists i :: 0 <= i < |s| && Special(s[i])
    ensures Escape(Escape(s)) != Escape(s)
  {
    ChainMatchesReference(s);
    EscapedGrows(s);
    var t := Escape(s);
    var k :| 0 <= k < |t| && t[k] == '&';
    EscapeFixedIff(t);
  }

  /** An entity that is already in the text is escaped again: an ampersand
      followed by plain text, such as `&lt;`, becomes `&amp;` followed by
      that text, so `&lt;` becomes `&amp;lt;`. */
  lemma EscapeEscapesEntities(t: string)
    requires forall i :: 0 <= i < |t| ==> !Special(t[i])
    ensures Escape(['&'] + t) == "&amp;" + t
  {
    var s := ['&'] + t;
    ChainMatchesReference(s);
    assert s[1..] == t;
    EscapedPlain(t);
  }
}
