/** `escapeHTML`: the text of a blog post is made safe for markup by replacing
    the five characters `& < > " '` with their character-entity references. */
module Escaping {
  import opened Wrappers

  predicate IsSpecial(c: char) {
    c == '&' || c == '<' || c == '>' || c == '"' || c == '\''
  }

  /** A character that can open or close a tag or an attribute value. */
  predicate IsMarkup(c: char) {
    c == '<' || c == '>' || c == '"' || c == '\''
  }

  predicate NoSpecial(s: string) {
    forall i :: 0 <= i < |s| ==> !IsSpecial(s[i])
  }

  /** What one character of the input becomes in the output. */
  function Entity(c: char): (e: string)
    ensures |e| >= 1 && e[0] == (if IsSpecial(c) then '&' else c)
    ensures IsSpecial(c) <==> |e| > 1
    ensures forall k :: 0 <= k < |e| ==> !IsMarkup(e[k])
    ensures forall k :: 0 < k < |e| ==> e[k] != '&'
  {
    match c
    case '&' => "&amp;"
    case '<' => "&lt;"
    case '>' => "&gt;"
    case '"' => "&quot;"
    case '\'' => "&#39;"
    case _ => [c]
  }

  /** The global replacement that `escapeHTML` performs on a present string. */
  function Escape(s: string): (r: string)
    ensures |r| >= |s|
  {
    if s == [] then [] else Entity(s[0]) + Escape(s[1..])
  }

  /** `escapeHTML(str)`: an absent or empty value gives the empty string. */
  function EscapeHtml(str: Option<string>): (r: string)
    ensures str == None || str == Some([]) ==> r == []
    ensures str.Some? ==> |r| >= |str.value|
  {
    match str
    case None => []
    case Some(s) => Escape(s)
  }

  predicate StartsWith(s: string, prefix: string) {
    |prefix| <= |s| && s[..|prefix|] == prefix
  }

  /** Position `i` of `s` opens one of the five entity references. */
  predicate EntityAt(s: string, i: nat)
    requires i <= |s|
  {
    var rest := s[i..];
    StartsWith(rest, "&amp;") || StartsWith(rest, "&lt;") || StartsWith(rest, "&gt;")
    || StartsWith(rest, "&quot;") || StartsWith(rest, "&#39;")
  }

  /** The decoder of the five entity references: the reference definition
      against which `Escape` is shown to lose nothing. */
  function Unescape(s: string): (r: string)
    decreases |s|
  {
    if s == [] then []
    else if s[0] != '&' then [s[0]] + Unescape(s[1..])
    else if StartsWith(s, "&amp;") then "&" + Unescape(s[5..])
    else if StartsWith(s, "&lt;") then "<" + Unescape(s[4..])
    else if StartsWith(s, "&gt;") then ">" + Unescape(s[4..])
    else if StartsWith(s, "&quot;") then "\"" + Unescape(s[6..])
    else if StartsWith(s, "&#39;") then "'" + Unescape(s[5..])
    else [s[0]] + Unescape(s[1..])
  }

  lemma Differs(s: string, prefix: string, k: nat)
    requires k < |prefix| && k < |s| && s[k] != prefix[k]
    ensures !StartsWith(s, prefix)
  {
    assert |prefix| <= |s| ==> s[..|prefix|][k] == s[k];
  }

  lemma UnescapeEntity(c: char, t: string)
    ensures Unescape(Entity(c) + t) == [c] + Unescape(t)
  {
    var e := Entity(c);
    var s := e + t;
    assert s[..|e|] == e && s[|e|..] == t;
    if c == '<' {
      Differs(s, "&amp;", 1);
    } else if c == '>' {
      Differs(s, "&amp;", 1);
      Differs(s, "&lt;", 1);
    } else if c == '"' {
      Differs(s, "&amp;", 1);
      Differs(s, "&lt;", 1);
      Differs(s, "&gt;", 1);
    } else if c == '\'' {
      Differs(s, "&amp;", 1);
      Differs(s, "&lt;", 1);
      Differs(s, "&gt;", 1);
      Differs(s, "&quot;", 1);
    }
  }

  /** Escaping loses nothing: decoding the output gives back the input, so
      every character other than the five special ones is copied unchanged
      and in order, and each special one becomes exactly its entity. */
  lemma {:induction false} UnescapeEscape(s: string)
    ensures Unescape(Escape(s)) == s
  {
    if s != [] {
      UnescapeEscape(s[1..]);
      UnescapeEntity(s[0], Escape(s[1..]));
      assert [s[0]] + s[1..] == s;
    }
  }

  /** The output holds no `<`, `>`, `"` or `'`. */
  lemma {:induction false} EscapeHasNoMarkup(s: string)
    ensures forall i :: 0 <= i < |Escape(s)| ==> !IsMarkup(Escape(s)[i])
  {
    if s != [] {
      EscapeHasNoMarkup(s[1..]);
      var e, t := Entity(s[0]), Escape(s[1..]);
      assert Escape(s) == e + t;
      forall i | 0 <= i < |e + t| ensures !IsMarkup((e + t)[i]) {
        if i >= |e| {
          assert (e + t)[i] == t[i - |e|];
        }
      }
    }
  }

  lemma StartsWithExtended(s: string, t: string, prefix: string)
    requires StartsWith(s, prefix)
    ensures StartsWith(s + t, prefix)
  {
    assert (s + t)[..|prefix|] == s[..|prefix|];
  }

  lemma EntityOpensEntity(c: char, t: string)
    requires IsSpecial(c)
    ensures EntityAt(Entity(c) + t, 0)
  {
    var e := Entity(c);
    assert StartsWith(e, e);
    StartsWithExtended(e, t, e);
    assert (e + t)[0..] == e + t;
  }

  /** Every `&` of the output opens one of the five entity references, so no
      other reference can be read into it. */
  lemma {:induction false} EscapeAmpersandsAreEntities(s: string)
    ensures forall i :: 0 <= i < |Escape(s)| && Escape(s)[i] == '&' ==> EntityAt(Escape(s), i)
  {
    if s != [] {
      EscapeAmpersandsAreEntities(s[1..]);
      var e, t := Entity(s[0]), Escape(s[1..]);
      assert Escape(s) == e + t;
      forall i | 0 <= i < |e + t| && (e + t)[i] == '&' ensures EntityAt(e + t, i) {
        if i < |e| {
          assert i == 0 && IsSpecial(s[0]);
          EntityOpensEntity(s[0], t);
        } else {
          assert (e + t)[i] == t[i - |e|];
          assert EntityAt(t, i - |e|);
          assert (e + t)[i..] == t[i - |e|..];
        }
      }
    }
  }

  /** The output is the input itself exactly when the input has none of the
      five special characters; otherwise it is strictly longer. */
  lemma {:induction false} EscapeIdentityIff(s: string)
    ensures Escape(s) == s <==> NoSpecial(s)
    ensures |Escape(s)| == |s| <==> NoSpecial(s)
  {
    if s != [] {
      EscapeIdentityIff(s[1..]);
      var e, t := Entity(s[0]), Escape(s[1..]);
      assert Escape(s) == e + t;
      if NoSpecial(s) {
        assert NoSpecial(s[1..]);
        assert [s[0]] + s[1..] == s;
      } else if !IsSpecial(s[0]) {
        assert !NoSpecial(s[1..]) by {
          var k :| 0 <= k < |s| && IsSpecial(s[k]);
          assert s[1..][k - 1] == s[k];
        }
      }
    }
  }

  /** Text that cannot open a tag or an attribute value and in which every
      `&` opens one of the five entity references. */
  predicate SafeText(s: string) {
    (forall i :: 0 <= i < |s| ==> !IsMarkup(s[i]))
    && (forall i :: 0 <= i < |s| && s[i] == '&' ==> EntityAt(s, i))
  }

  /** Whatever `escapeHTML` is given, what it returns is safe text. */
  lemma EscapeHtmlSafe(str: Option<string>)
    ensures SafeText(EscapeHtml(str))
  {
    if str.Some? {
      EscapeHasNoMarkup(str.value);
      EscapeAmpersandsAreEntities(str.value);
    }
  }
}
