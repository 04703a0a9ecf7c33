/** The media type a Content-Type header declares, as the bridge reads it. */
module MediaTypes {
  import opened Lists
  import opened PyText

  /** `declared.split(";")[0].strip().lower()`. */
  function MediaType(declared: string): string { LowerAscii(Strip(Split(declared, ';')[0])) }

  predicate Blank(s: string) { forall i :: 0 <= i < |s| ==> IsSpace(s[i]) }

  /** The header is the type in any case, space around it, and then parameters or nothing. */
  ghost predicate DeclaredAs(declared: string, media: string, pre: string, body: string, post: string, rest: string) {
    && declared == pre + body + post + rest && Blank(pre) && Blank(post)
    && AnyCase(body, media) && (rest == "" || rest[0] == ';')
  }

  ghost predicate Declares(declared: string, media: string) {
    exists pre, body, post, rest :: DeclaredAs(declared, media, pre, body, post, rest)
  }

  /** A bare media type: no space, no parameters, no capitals. */
  predicate Bare(media: string) {
    media != "" && forall i :: 0 <= i < |media| ==>
      media[i] != ';' && !IsSpace(media[i]) && !('A' <= media[i] <= 'Z')
  }

  predicate Solid(s: string) { s != "" && forall i :: 0 <= i < |s| ==> s[i] != ';' && !IsSpace(s[i]) }

  lemma {:induction false} MediaTypeExactly(declared: string, media: string)
    requires Bare(media)
    ensures MediaType(declared) == media <==> Declares(declared, media)
  {
    if MediaType(declared) == media { MediaIsDeclared(declared, media); }
    forall pre, body, post, rest | DeclaredAs(declared, media, pre, body, post, rest)
      ensures MediaType(declared) == media
    {
      DeclaredIsMedia(declared, media, pre, body, post, rest);
    }
  }

  lemma {:induction false} MediaIsDeclared(declared: string, media: string)
    requires Bare(media) && MediaType(declared) == media
    ensures Declares(declared, media)
  {
    var first, rest := FirstOf(declared);
    var pre, post := Stripped(first);
    var body := Strip(first);
    AnyCaseExactly(body, media);
    assert DeclaredAs(declared, media, pre, body, post, rest);
  }

  lemma {:induction false} FirstOf(declared: string) returns (first: string, rest: string)
    ensures declared == first + rest && Split(declared, ';')[0] == first && (rest == "" || rest[0] == ';')
  {
    var i := IndexOf(declared, ';');
    first, rest := declared[..i], declared[i..];
  }

  /** What `strip` takes off each end is blank. */
  lemma {:induction false} Stripped(s: string) returns (pre: string, post: string)
    ensures s == pre + Strip(s) + post && Blank(pre) && Blank(post)
  {
    var left := LTrim(s, IsSpace);
    LTrimTakesBlank(s);
    pre, post := Tails(s, left, RTrim(left, IsSpace));
    RTrimTakesBlank(left);
  }

  lemma {:induction false} Tails(s: string, left: string, body: string) returns (pre: string, post: string)
    requires |left| <= |s| && left == s[|s| - |left|..] && |body| <= |left| && body == left[..|body|]
    ensures s == pre + body + post && pre == s[..|s| - |left|] && post == left[|body|..]
  {
    pre, post := s[..|s| - |left|], left[|body|..];
    assert left == body + post && s == pre + left;
    assert pre + (body + post) == pre + body + post;
  }

  lemma {:induction false} LTrimTakesBlank(s: string)
    ensures Blank(s[..|s| - |LTrim(s, IsSpace)|])
  {
    if s != "" && IsSpace(s[0]) {
      LTrimTakesBlank(s[1..]);
      var n := |s| - |LTrim(s, IsSpace)|;
      assert s[..n] == [s[0]] + s[1..][..n - 1];
    }
  }

  lemma {:induction false} RTrimTakesBlank(s: string)
    ensures Blank(s[|RTrim(s, IsSpace)|..])
  {
    if s != "" && IsSpace(s[|s| - 1]) {
      var before, n := s[..|s| - 1], |RTrim(s, IsSpace)|;
      RTrimTakesBlank(before);
      assert s[n..] == before[n..] + [s[|s| - 1]];
    }
  }

  lemma {:induction false} DeclaredIsMedia(
      declared: string, media: string, pre: string, body: string, post: string, rest: string)
    requires Bare(media) && DeclaredAs(declared, media, pre, body, post, rest)
    ensures MediaType(declared) == media
  {
    var first := pre + body + post;
    BodyIsSolid(body, media);
    AnyCaseExactly(body, media);
    FirstPart(first, rest);
    assert declared == first + rest;
    StripAround(pre, body, post);
  }

  /** Lowercasing leaves separators and spaces alone. */
  lemma {:induction false} BodyIsSolid(body: string, media: string)
    requires Bare(media) && AnyCase(body, media)
    ensures Solid(body)
  {
    forall i | 0 <= i < |body| ensures body[i] != ';' && !IsSpace(body[i]) {}
  }

  lemma {:induction false} FirstPart(first: string, rest: string)
    requires (forall i :: 0 <= i < |first| ==> first[i] != ';') && (rest == "" || rest[0] == ';')
    ensures Split(first + rest, ';')[0] == first
  {
    assert ';' !in first;
    if rest == "" {
      assert first + rest == first;
      assert IndexOf(first, ';') == |first|;
    } else {
      assert first + rest == first + [';'] + rest[1..];
      SplitFirst(first, ';', rest[1..]);
    }
  }

  lemma {:induction false} StripAround(pre: string, body: string, post: string)
    requires Blank(pre) && Blank(post) && Solid(body)
    ensures Strip(pre + body + post) == body
  {
    LTrimBlank(pre, body + post);
    assert pre + body + post == pre + (body + post);
    RTrimBlank(body, post);
  }

  lemma {:induction false} LTrimBlank(pre: string, s: string)
    requires Blank(pre) && s != "" && !IsSpace(s[0])
    ensures LTrim(pre + s, IsSpace) == s
  {
    if pre == "" {
      assert pre + s == s;
    } else {
      assert (pre + s)[1..] == pre[1..] + s;
      LTrimBlank(pre[1..], s);
    }
  }

  lemma {:induction false} RTrimBlank(s: string, post: string)
    requires Blank(post) && s != "" && !IsSpace(s[|s| - 1])
    ensures RTrim(s + post, IsSpace) == s
  {
    if post == "" {
      assert s + post == s;
    } else {
      var n := |post| - 1;
      assert (s + post)[..|s| + n] == s + post[..n];
      RTrimBlank(s, post[..n]);
    }
  }
}
