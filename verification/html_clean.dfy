/** `CalculatorController.cleanHtmlTags`: tags are deleted, seven common
    entities decoded one after the other, and whitespace collapsed and
    trimmed. */
module HtmlClean {
  import opened Wrappers
  import opened JavaText

  /** `replaceAll("<[^>]+>", "")`: from each `<` that is followed, after at
      least one other unit, by a `>`, everything up to and including the
      first such `>` goes. */
  function RemoveTags(s: string): (r: string)
    ensures |r| <= |s|
    ensures forall i :: 0 <= i < |r| ==> r[i] in s
    ensures |s| > 0 && s[0] != '<' ==> |r| > 0 && r[0] == s[0]
    decreases |s|
  {
    if |s| == 0 then ""
    else if s[0] == '<' then
      match IndexOfChar(s[1..], '>')
      case Some(j) =>
        if j > 0 then
          var rest := RemoveTags(s[j + 2..]);
          assert forall i :: 0 <= i < |rest| ==> rest[i] in s by {
            forall i | 0 <= i < |rest| ensures rest[i] in s {
              var c := rest[i];
              var k :| 0 <= k < |s[j + 2..]| && s[j + 2..][k] == c;
              assert s[j + 2 + k] == c;
            }
          }
          rest
        else
          var rest := RemoveTags(s[1..]);
          KeepIn(s, rest);
          "<" + rest
      case None =>
        var rest := RemoveTags(s[1..]);
        KeepIn(s, rest);
        "<" + rest
    else
      var rest := RemoveTags(s[1..]);
      KeepIn(s, rest);
      [s[0]] + rest
  }

  lemma KeepIn(s: string, rest: string)
    requires |s| > 0 && forall i :: 0 <= i < |rest| ==> rest[i] in s[1..]
    ensures forall i :: 0 <= i < |rest| ==> rest[i] in s
  {
    forall i | 0 <= i < |rest| ensures rest[i] in s {
      var k :| 0 <= k < |s[1..]| && s[1..][k] == rest[i];
      assert s[k + 1] == rest[i];
    }
  }

  /** A first unit other than `<` is kept, and removal goes on after it. */
  lemma RemoveTagsPlainStep(s: string)
    requires |s| > 0 && s[0] != '<'
    ensures RemoveTags(s) == [s[0]] + RemoveTags(s[1..])
  {
  }

  /** A `<` whose first `>` comes after a non-empty body starts a tag that
      is deleted whole. */
  lemma RemoveTagsTagStep(s: string, j: nat)
    requires |s| > 0 && s[0] == '<' && IndexOfChar(s[1..], '>') == Some(j) && j > 0
    ensures RemoveTags(s) == RemoveTags(s[j + 2..])
  {
  }

  /** Text with no `<` passes through removal unchanged, whatever follows
      it. */
  lemma {:induction false} RemoveTagsKeepsPlain(x: string, y: string)
    requires '<' !in x
    ensures RemoveTags(x + y) == x + RemoveTags(y)
    decreases |x|
  {
    if |x| == 0 {
      assert x + y == y;
    } else {
      var s := x + y;
      assert s[0] == x[0] && s[1..] == x[1..] + y;
      RemoveTagsPlainStep(s);
      RemoveTagsKeepsPlain(x[1..], y);
      ConsThenAppend(x, RemoveTags(y));
    }
  }

  lemma ConsThenAppend(x: string, z: string)
    requires |x| > 0
    ensures [x[0]] + (x[1..] + z) == x + z
  {
    assert [x[0]] + x[1..] == x;
  }

  /** The first `>` after `<` in `"<" + t + ">" + y`, where `t` holds none,
      is the one closing `t`. */
  lemma FirstClose(t: string, y: string)
    requires '>' !in t
    ensures IndexOfChar(t + ">" + y, '>') == Some(|t|)
  {
    var body := t + ">" + y;
    assert body[|t|] == '>';
  }

  /** A tag `<t>`, its body non-empty and without `>`, is deleted and
      nothing else: the text before it is kept and removal goes on after
      it. */
  lemma RemoveTagsDeletesTag(x: string, t: string, y: string)
    requires '<' !in x && |t| > 0 && '>' !in t
    ensures RemoveTags(x + "<" + t + ">" + y) == x + RemoveTags(y)
  {
    var tag := "<" + t + ">" + y;
    assert RemoveTags(tag) == RemoveTags(y) by {
      assert tag[0] == '<' && tag[1..] == t + ">" + y;
      FirstClose(t, y);
      assert tag[|t| + 2..] == y;
      RemoveTagsTagStep(tag, |t|);
    }
    assert x + "<" + t + ">" + y == x + tag;
    RemoveTagsKeepsPlain(x, tag);
  }

  /** No `<[^>]+>` match: every `<` is directly followed by `>`, or by no
      `>` at all. */
  predicate TagFree(s: string) {
    forall p :: 0 <= p < |s| && s[p] == '<' ==>
      (p + 1 < |s| && s[p + 1] == '>') || '>' !in s[p + 1..]
  }

  /** After removal no tag is left. */
  lemma {:induction false} RemoveTagsTagFree(s: string)
    ensures TagFree(RemoveTags(s))
    decreases |s|
  {
    if |s| > 0 {
      var r := RemoveTags(s);
      if s[0] == '<' {
        match IndexOfChar(s[1..], '>')
        case Some(j) =>
          if j > 0 {
            RemoveTagsTagFree(s[j + 2..]);
          } else {
            var rest := RemoveTags(s[1..]);
            RemoveTagsTagFree(s[1..]);
            assert rest[0] == '>';
            ConsTagFree('<', rest);
          }
        case None =>
          var rest := RemoveTags(s[1..]);
          RemoveTagsTagFree(s[1..]);
          assert '>' !in rest;
          ConsTagFree('<', rest);
      } else {
        RemoveTagsTagFree(s[1..]);
        ConsTagFree(s[0], RemoveTags(s[1..]));
      }
    }
  }

  lemma ConsTagFree(c: char, rest: string)
    requires TagFree(rest)
    requires c == '<' ==> (|rest| > 0 && rest[0] == '>') || '>' !in rest
    ensures TagFree([c] + rest)
  {
    var s := [c] + rest;
    forall p | 0 <= p < |s| && s[p] == '<'
      ensures (p + 1 < |s| && s[p + 1] == '>') || '>' !in s[p + 1..]
    {
      if p == 0 {
        assert s[1..] == rest;
      } else {
        assert rest[p - 1] == '<';
        assert s[p + 1..] == rest[p..];
      }
    }
  }

  /** Removal leaves text without tags unchanged, so it is idempotent. */
  lemma {:induction false} RemoveTagsOfTagFree(s: string)
    requires TagFree(s)
    ensures RemoveTags(s) == s
    decreases |s|
  {
    if |s| > 0 {
      assert TagFree(s[1..]) by {
        forall p | 0 <= p < |s[1..]| && s[1..][p] == '<'
          ensures (p + 1 < |s[1..]| && s[1..][p + 1] == '>') || '>' !in s[1..][p + 1..]
        {
          assert s[p + 1] == '<';
          assert s[1..][p + 1..] == s[p + 2..];
        }
      }
      RemoveTagsOfTagFree(s[1..]);
      if s[0] == '<' {
        match IndexOfChar(s[1..], '>')
        case Some(j) =>
          assert '>' in s[1..] by { assert s[1..][j] == '>'; }
        case None =>
      }
    }
  }

  lemma RemoveTagsIdempotent(s: string)
    ensures RemoveTags(RemoveTags(s)) == RemoveTags(s)
  {
    RemoveTagsTagFree(s);
    RemoveTagsOfTagFree(RemoveTags(s));
  }

  /** The entities, in the order they are decoded, each with its text. */
  const Entities: seq<(string, string)> := [
    ("&amp;", "&"), ("&lt;", "<"), ("&gt;", ">"), ("&quot;", "\""),
    ("&#39;", "'"), ("&nbsp;", " "), ("&apos;", "'")
  ]

  /** The chain of `replace` calls from entity `i` on. */
  function DecodeFrom(s: string, i: nat): string
    requires i <= |Entities|
    decreases |Entities| - i
  {
    if i == |Entities| then s
    else
      assert |Entities[i].0| > 0;
      DecodeFrom(Replace(s, Entities[i].0, Entities[i].1), i + 1)
  }

  function DecodeEntities(s: string): string {
    DecodeFrom(s, 0)
  }

  /** Text without `&` holds no entity and is left as it is. */
  lemma {:induction false} DecodeWithoutAmpersand(s: string, i: nat)
    requires i <= |Entities| && '&' !in s
    ensures DecodeFrom(s, i) == s
    decreases |Entities| - i
  {
    if i < |Entities| {
      var pat := Entities[i].0;
      assert pat[0] == '&';
      forall k ensures !OccursAt(s, pat, k) {
        if 0 <= k && k + |pat| <= |s| {
          assert s[k..k + |pat|][0] == s[k] != '&';
        }
      }
      ReplaceAbsent(s, pat, Entities[i].1);
      DecodeWithoutAmpersand(s, i + 1);
    }
  }

  /** Decoding runs entity by entity over the whole text, so an escaped
      entity is decoded twice: "&amp;lt;" becomes "<", not "&lt;". */
  lemma DoubleDecoding()
    ensures DecodeEntities("&amp;lt;") == "<"
  {
    assert Replace("&amp;lt;", "&amp;", "&") == "&lt;" by {
      assert Replace("lt;", "&amp;", "&") == "lt;";
    }
    assert Replace("&lt;", "&lt;", "<") == "<";
    DecodeWithoutAmpersand("<", 2);
  }

  /** `cleanHtmlTags`: null for null or blank input. */
  function CleanHtmlTags(html: Option<string>): (r: Option<string>)
    ensures r.None? <==> html.None? || Trim(html.value) == ""
    ensures r.Some? ==> forall i :: 0 <= i < |r.value| ==> IsRegexSpace(r.value[i]) ==> r.value[i] == ' '
    ensures r.Some? ==> forall i :: 0 <= i < |r.value| - 1 ==> !(r.value[i] == ' ' && r.value[i + 1] == ' ')
    ensures r.Some? ==> Trim(r.value) == r.value
  {
    if html.None? || Trim(html.value) == "" then None
    else
      var collapsed := CollapseWhitespace(DecodeEntities(RemoveTags(html.value)));
      TrimCollapsed(collapsed);
      Some(Trim(collapsed))
  }

  /** Trimming keeps the single-space shape of a collapsed text. */
  lemma TrimCollapsed(collapsed: string)
    requires forall i :: 0 <= i < |collapsed| ==> IsRegexSpace(collapsed[i]) ==> collapsed[i] == ' '
    requires forall i :: 0 <= i < |collapsed| - 1 ==> !(collapsed[i] == ' ' && collapsed[i + 1] == ' ')
    ensures var t := Trim(collapsed);
      (forall i :: 0 <= i < |t| ==> IsRegexSpace(t[i]) ==> t[i] == ' ')
      && (forall i :: 0 <= i < |t| - 1 ==> !(t[i] == ' ' && t[i + 1] == ' '))
      && Trim(t) == t
  {
    TrimInfix(collapsed);
    TrimIdempotent(collapsed);
    var a := TrimOffset(collapsed);
    var t := Trim(collapsed);
    assert forall i :: 0 <= i < |t| ==> t[i] == collapsed[a + i];
  }

  /** Plain text, already trimmed and single-spaced (its only whitespace
      is lone spaces), comes back as it was. */
  lemma CleanPlainText(s: string)
    requires Trim(s) == s && s != ""
    requires forall i :: 0 <= i < |s| ==> s[i] != '<' && s[i] != '&'
    requires SingleSpaced(s)
    ensures CleanHtmlTags(Some(s)) == Some(s)
  {
    assert RemoveTags(s) == s by {
      assert TagFree(s);
      RemoveTagsOfTagFree(s);
    }
    assert DecodeEntities(s) == s by {
      DecodeWithoutAmpersand(s, 0);
    }
    assert CollapseWhitespace(s) == s by {
      CollapseSingleSpaced(s);
    }
  }

  /** Every `\s` unit is a space and no two spaces are adjacent. */
  predicate SingleSpaced(s: string) {
    && (forall i :: 0 <= i < |s| ==> IsRegexSpace(s[i]) ==> s[i] == ' ')
    && (forall i :: 0 <= i < |s| - 1 ==> !(s[i] == ' ' && s[i + 1] == ' '))
  }

  /** Collapsing whitespace leaves single-spaced text alone. */
  lemma {:induction false} CollapseSingleSpaced(s: string)
    requires SingleSpaced(s)
    ensures CollapseWhitespace(s) == s
    decreases |s|
  {
    if |s| > 0 {
      assert SingleSpaced(s[1..]) by {
        forall i | 0 <= i < |s[1..]| - 1 ensures !(s[1..][i] == ' ' && s[1..][i + 1] == ' ') {
          assert s[1..][i] == s[i + 1] && s[1..][i + 1] == s[i + 2];
        }
      }
      CollapseSingleSpaced(s[1..]);
      if IsRegexSpace(s[0]) {
        assert SkipSpaces(s) == s[1..] by {
          if |s| > 1 {
            assert s[1] != ' ';
            assert !IsRegexSpace(s[1]);
          }
          assert SkipSpaces(s) == SkipSpaces(s[1..]);
        }
        assert s == " " + s[1..];
      } else {
        assert s == [s[0]] + s[1..];
      }
    }
  }
}
