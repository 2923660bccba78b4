/**
  Comment removal by one global regular-expression replace with the empty
  string, whose two alternatives are a lazy block comment and a line
  comment. The text is scanned left to right; at each position a block
  comment (from slash-star to the FIRST following star-slash, possibly over
  several lines) or a line comment (from two slashes up to, not including,
  the next line terminator) is deleted, and any other character is kept.
*/
module Comments {
  import opened Wrappers
  import opened Patterns

  /** A star-slash starts at index `j` of `s`. */
  predicate CloseAt(s: string, j: int) {
    0 <= j && j + 1 < |s| && s[j] == '*' && s[j + 1] == '/'
  }

  /** `s` holds no star-slash. */
  predicate NoClose(s: string) {
    forall j :: 0 <= j < |s| ==> !CloseAt(s, j)
  }

  /** `s` holds no slash at all. */
  predicate NoSlash(s: string) {
    forall j :: 0 <= j < |s| ==> s[j] != '/'
  }

  /** `s` holds no line terminator. */
  predicate SingleLine(s: string) {
    forall j :: 0 <= j < |s| ==> !IsLineTerminator(s[j])
  }

  lemma NoSlashConcat(a: string, b: string)
    requires NoSlash(a) && NoSlash(b)
    ensures NoSlash(a + b)
  {
    forall j | 0 <= j < |a + b| ensures (a + b)[j] != '/' {
      if j >= |a| { assert (a + b)[j] == b[j - |a|]; }
    }
  }

  /** The first star-slash at or after `from`: where the lazy `[\s\S]*?` stops. */
  function FindClose(s: string, from: nat): (r: Option<nat>)
    ensures r.Some? ==> from <= r.value && CloseAt(s, r.value)
    ensures forall j :: from <= j && (r.None? || j < r.value) ==> !CloseAt(s, j)
    decreases |s| - from
  {
    if from + 1 >= |s| then None
    else if CloseAt(s, from) then Some(from)
    else FindClose(s, from + 1)
  }

  /** The first line terminator at or after `from`, or `|s|`: where `.*` stops. */
  function LineEnd(s: string, from: nat): (e: nat)
    requires from <= |s|
    ensures from <= e <= |s|
    ensures e == |s| || IsLineTerminator(s[e])
    ensures forall j :: from <= j < e ==> !IsLineTerminator(s[j])
    decreases |s| - from
  {
    if from == |s| || IsLineTerminator(s[from]) then from else LineEnd(s, from + 1)
  }

  /** The text with every comment removed. */
  function StripComments(s: string): (t: string)
    ensures |t| <= |s|
    decreases |s|
  {
    if |s| == 0 then []
    else if |s| >= 2 && s[0] == '/' && s[1] == '*' && FindClose(s, 2).Some? then
      StripComments(s[FindClose(s, 2).value + 2..])
    else if |s| >= 2 && s[0] == '/' && s[1] == '/' then
      StripComments(s[LineEnd(s, 2)..])
    else
      [s[0]] + StripComments(s[1..])
  }

  /** Text without a slash passes through untouched, whatever follows it. */
  lemma {:induction false} PlainPrefixKept(a: string, r: string)
    requires NoSlash(a)
    ensures StripComments(a + r) == a + StripComments(r)
    decreases |a|
  {
    if a == [] {
      assert a + r == r;
    } else {
      assert (a + r)[0] == a[0];
      assert (a + r)[1..] == a[1..] + r;
      PlainPrefixKept(a[1..], r);
    }
  }

  /** A slash followed by neither a star nor a slash starts no comment. */
  lemma LoneSlashKept(c: char, r: string)
    requires c != '*' && c != '/'
    ensures StripComments("/" + [c] + r) == "/" + StripComments([c] + r)
  {
  }

  /** A slash that ends the text starts no comment. */
  lemma FinalSlashKept()
    ensures StripComments("/") == "/"
  {
  }

  /**
    A block comment is removed up to its first star-slash (the shortest
    match), together with the line breaks inside it.
  */
  lemma BlockCommentRemoved(c: string, r: string)
    requires NoClose(c)
    ensures StripComments("/*" + c + "*/" + r) == StripComments(r)
  {
    var s := "/*" + c + "*/" + r;
    var k := |c| + 2;
    assert CloseAt(s, k);
    forall j | 2 <= j < k ensures !CloseAt(s, j) {
      if j + 1 < k {
        assert s[j] == c[j - 2] && s[j + 1] == c[j - 1];
        assert !CloseAt(c, j - 2);
      } else {
        assert s[j + 1] == '*';
      }
    }
    assert FindClose(s, 2) == Some(k);
    assert s[k + 2..] == r;
  }

  /**
    A line comment is removed up to, not including, the line terminator
    that ends it (or to the end of the text).
  */
  lemma LineCommentRemoved(c: string, r: string)
    requires SingleLine(c)
    requires r == [] || IsLineTerminator(r[0])
    ensures StripComments("//" + c + r) == StripComments(r)
  {
    var s := "//" + c + r;
    var k := |c| + 2;
    forall j | 2 <= j < k ensures !IsLineTerminator(s[j]) {
      assert s[j] == c[j - 2];
    }
    assert k == |s| || IsLineTerminator(s[k]);
    assert LineEnd(s, 2) == k;
    assert s[k..] == r;
  }

  /**
    A slash-star that is never closed is not a comment: the slash-star is
    kept, and comment removal carries on with the text after it.
  */
  lemma UnclosedBlockKept(c: string)
    requires NoClose(c)
    ensures StripComments("/*" + c) == "/*" + StripComments(c)
  {
    var s := "/*" + c;
    assert FindClose(s, 2).None? by {
      forall j | 2 <= j ensures !CloseAt(s, j) {
        if j + 1 < |s| {
          assert s[j] == c[j - 2] && s[j + 1] == c[j - 1];
          assert !CloseAt(c, j - 2);
        }
      }
    }
    assert s[1..] == "*" + c;
    assert ("*" + c)[1..] == c;
  }
}
