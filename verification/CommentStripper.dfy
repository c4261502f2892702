/** Removing HTML comments from templates: one global replacement, repeated until nothing changes. */
module CommentStripper {
  import opened Wrappers

  const OPEN: string := "<!--"
  const CLOSE: string := "-->"

  predicate OpensAt(s: string, i: nat) {
    i + 4 <= |s| && s[i..i + 4] == OPEN
  }

  predicate ClosesAt(s: string, j: nat) {
    j + 3 <= |s| && s[j..j + 3] == CLOSE
  }

  /** The marks, character by character. */
  lemma MarksAre(s: string, i: nat)
    ensures OpensAt(s, i) <==> i + 3 < |s| && s[i] == '<' && s[i + 1] == '!' && s[i + 2] == '-' && s[i + 3] == '-'
    ensures ClosesAt(s, i) <==> i + 2 < |s| && s[i] == '-' && s[i + 1] == '-' && s[i + 2] == '>'
  {
    if i + 4 <= |s| {
      var mark := s[i..i + 4];
      assert mark[0] == s[i] && mark[1] == s[i + 1] && mark[2] == s[i + 2] && mark[3] == s[i + 3];
      assert mark == OPEN <==> mark[0] == '<' && mark[1] == '!' && mark[2] == '-' && mark[3] == '-';
    }
    if i + 3 <= |s| {
      var mark := s[i..i + 3];
      assert mark[0] == s[i] && mark[1] == s[i + 1] && mark[2] == s[i + 2];
      assert mark == CLOSE <==> mark[0] == '-' && mark[1] == '-' && mark[2] == '>';
    }
  }

  /** A complete comment lies at `i`, its first closing mark at `j`; the two marks do not overlap. */
  ghost predicate CommentAt(s: string, i: nat, j: nat) {
    && OpensAt(s, i) && i + 4 <= j && ClosesAt(s, j)
    && forall k: nat :: i + 4 <= k < j ==> !ClosesAt(s, k)
  }

  ghost predicate HasComment(s: string) {
    exists i: nat, j: nat :: OpensAt(s, i) && i + 4 <= j && ClosesAt(s, j)
  }

  /** The lazy part of the expression: the nearest closing mark at or after `from`. */
  function FindClose(s: string, from: nat): (r: Option<nat>)
    ensures r.Some? ==> from <= r.value && ClosesAt(s, r.value) && forall k: nat :: from <= k < r.value ==> !ClosesAt(s, k)
    ensures r.None? ==> forall k: nat :: from <= k ==> !ClosesAt(s, k)
    decreases |s| - from
  {
    if from >= |s| then None
    else if ClosesAt(s, from) then Some(from)
    else FindClose(s, from + 1)
  }

  /** `content.replace(/<!--[\s\S]*?-->/g, '')`: leftmost matches, without rescanning what is joined. */
  function StripOnce(s: string): string
    decreases |s|
  {
    if s == "" then ""
    else
      var close := LeadingComment(s);
      if close.Some? then StripOnce(s[close.value + 3..]) else [s[0]] + StripOnce(s[1..])
  }

  // ---------- What one deletion does ----------

  ghost predicate Deletes(s: string, t: string) {
    exists i: nat, j: nat :: CommentAt(s, i, j) && t == s[..i] + s[j + 3..]
  }

  /** `t` comes from `s` by deleting `n` complete comments, one after the other. */
  ghost predicate DeletesMany(n: nat, s: string, t: string) {
    if n == 0 then s == t else exists m :: Deletes(s, m) && DeletesMany(n - 1, m, t)
  }

  ghost predicate Subsequence(t: string, s: string)
    decreases |s|
  {
    t == "" || (s != "" && ((t[0] == s[0] && Subsequence(t[1..], s[1..])) || Subsequence(t, s[1..])))
  }

  lemma {:induction false} SubsequenceTrans(a: string, b: string, c: string)
    requires Subsequence(a, b) && Subsequence(b, c)
    ensures Subsequence(a, c)
    decreases |b| + |c|
  {
    if a != "" {
      if Subsequence(b, c[1..]) {
        SubsequenceTrans(a, b, c[1..]);
      } else if Subsequence(a, b[1..]) {
        SubsequenceTrans(a, b[1..], c[1..]);
      } else {
        SubsequenceTrans(a[1..], b[1..], c[1..]);
      }
    }
  }

  lemma {:induction false} SuffixSubsequence(s: string, i: nat)
    requires i <= |s|
    ensures Subsequence(s[i..], s)
    decreases |s|
  {
    if s != "" {
      if i == 0 {
        assert s[0..] == s;
        SuffixSubsequence(s[1..], 0);
        assert s[1..][0..] == s[1..];
      } else {
        SuffixSubsequence(s[1..], i - 1);
        assert s[1..][i - 1..] == s[i..];
      }
    }
  }

  lemma {:induction false} CutSubsequence(s: string, i: nat, j: nat)
    requires i <= j <= |s|
    ensures Subsequence(s[..i] + s[j..], s)
    decreases i
  {
    if i == 0 {
      SuffixSubsequence(s, j);
      assert s[..0] + s[j..] == s[j..];
    } else {
      CutSubsequence(s[1..], i - 1, j - 1);
      var t := s[..i] + s[j..];
      assert t[1..] == s[1..][..i - 1] + s[1..][j - 1..];
    }
  }

  lemma {:induction false} DeletionsShrink(n: nat, s: string, t: string)
    requires DeletesMany(n, s, t)
    ensures Subsequence(t, s)
    ensures |t| + 7 * n <= |s|
  {
    if n == 0 {
      SuffixSubsequence(s, 0);
      assert s[0..] == s;
    } else {
      var m :| Deletes(s, m) && DeletesMany(n - 1, m, t);
      var i: nat, j: nat :| CommentAt(s, i, j) && m == s[..i] + s[j + 3..];
      CutSubsequence(s, i, j + 3);
      DeletionsShrink(n - 1, m, t);
      SubsequenceTrans(t, m, s);
    }
  }

  lemma {:induction false} DeletionsCompose(n: nat, k: nat, s: string, m: string, t: string)
    requires DeletesMany(n, s, m) && DeletesMany(k, m, t)
    ensures DeletesMany(n + k, s, t)
  {
    if n != 0 {
      var m' :| Deletes(s, m') && DeletesMany(n - 1, m', m);
      DeletionsCompose(n - 1, k, m', m, t);
      assert Deletes(s, m') && DeletesMany(n + k - 1, m', t);
    }
  }

  lemma ShiftMarks(c: char, s: string)
    ensures forall i: nat :: OpensAt([c] + s, i + 1) == OpensAt(s, i)
    ensures forall j: nat :: ClosesAt([c] + s, j + 1) == ClosesAt(s, j)
  {
    forall i: nat ensures OpensAt([c] + s, i + 1) == OpensAt(s, i) {
      if i + 4 <= |s| { assert ([c] + s)[i + 1..i + 5] == s[i..i + 4]; }
    }
    forall j: nat ensures ClosesAt([c] + s, j + 1) == ClosesAt(s, j) {
      if j + 3 <= |s| { assert ([c] + s)[j + 1..j + 4] == s[j..j + 3]; }
    }
  }

  lemma DeletesUnder(c: char, s: string, t: string)
    requires Deletes(s, t)
    ensures Deletes([c] + s, [c] + t)
  {
    var i: nat, j: nat :| CommentAt(s, i, j) && t == s[..i] + s[j + 3..];
    ShiftMarks(c, s);
    forall k: nat | i + 5 <= k < j + 1 ensures !ClosesAt([c] + s, k) {
      assert ClosesAt([c] + s, (k - 1) + 1) == ClosesAt(s, k - 1);
    }
    assert CommentAt([c] + s, i + 1, j + 1);
    assert [c] + t == ([c] + s)[..i + 1] + ([c] + s)[j + 4..];
  }

  lemma {:induction false} DeletesManyUnder(n: nat, c: char, s: string, t: string)
    requires DeletesMany(n, s, t)
    ensures DeletesMany(n, [c] + s, [c] + t)
  {
    if n != 0 {
      var m :| Deletes(s, m) && DeletesMany(n - 1, m, t);
      DeletesUnder(c, s, m);
      DeletesManyUnder(n - 1, c, m, t);
    }
  }

  // ---------- One replacement ----------

  lemma NoCommentUnder(s: string)
    requires s != "" && !HasComment(s[1..])
    requires !OpensAt(s, 0) || forall k: nat :: 4 <= k ==> !ClosesAt(s, k)
    ensures !HasComment(s)
  {
    ShiftMarks(s[0], s[1..]);
    assert [s[0]] + s[1..] == s;
    forall i: nat, j: nat | OpensAt(s, i) && i + 4 <= j ensures !ClosesAt(s, j) {
      if i > 0 {
        assert OpensAt(s, (i - 1) + 1) == OpensAt(s[1..], i - 1);
        assert ClosesAt(s, (j - 1) + 1) == ClosesAt(s[1..], j - 1);
      }
    }
  }

  /** The nearest end of a comment that begins the text. */
  function LeadingComment(s: string): (r: Option<nat>)
    ensures r.Some? ==> CommentAt(s, 0, r.value)
    ensures r.None? ==> !OpensAt(s, 0) || forall k: nat :: 4 <= k ==> !ClosesAt(s, k)
  {
    if OpensAt(s, 0) then FindClose(s, 4) else None
  }

  lemma StripOnceSteps(s: string)
    requires s != ""
    ensures LeadingComment(s).Some? ==>
      var rest := s[LeadingComment(s).value + 3..]; Deletes(s, rest) && StripOnce(s) == StripOnce(rest)
    ensures LeadingComment(s).None? ==> StripOnce(s) == [s[0]] + StripOnce(s[1..])
  {
    if LeadingComment(s).Some? {
      var j := LeadingComment(s).value;
      assert CommentAt(s, 0, j) && s[j + 3..] == s[..0] + s[j + 3..];
    }
  }

  /** `n` deletions account for one replacement of `s`. */
  ghost predicate Accounts(n: nat, s: string) {
    DeletesMany(n, s, StripOnce(s)) && (n == 0 <==> !HasComment(s))
  }

  lemma AccountsComment(n: nat, s: string)
    requires s != "" && LeadingComment(s).Some? && Accounts(n, s[LeadingComment(s).value + 3..])
    ensures Accounts(n + 1, s)
  {
    StripOnceSteps(s);
    var rest := s[LeadingComment(s).value + 3..];
    assert Deletes(s, rest) && DeletesMany(n, rest, StripOnce(s));
  }

  lemma AccountsChar(n: nat, s: string)
    requires s != "" && LeadingComment(s).None? && Accounts(n, s[1..])
    ensures Accounts(n, s)
  {
    StripOnceSteps(s);
    assert [s[0]] + s[1..] == s;
    DeletesManyUnder(n, s[0], s[1..], StripOnce(s[1..]));
    if n == 0 {
      NoCommentUnder(s);
    } else {
      var m :| Deletes(s, m) && DeletesMany(n - 1, m, StripOnce(s));
    }
  }

  /** One replacement only ever removes complete comments. */
  lemma {:induction false} StripOnceDeletes(s: string) returns (n: nat)
    ensures Accounts(n, s)
    decreases |s|
  {
    if s == "" {
      n := 0;
    } else if LeadingComment(s).Some? {
      n := StripOnceDeletes(s[LeadingComment(s).value + 3..]);
      AccountsComment(n, s);
      n := n + 1;
    } else {
      n := StripOnceDeletes(s[1..]);
      AccountsChar(n, s);
    }
  }

  /** One replacement leaves the text alone exactly when it holds no complete comment, and shortens it otherwise. */
  lemma StripOnceStableIff(s: string)
    ensures StripOnce(s) == s <==> !HasComment(s)
    ensures HasComment(s) ==> |StripOnce(s)| < |s|
  {
    var n := StripOnceDeletes(s);
    DeletionsShrink(n, s, StripOnce(s));
  }

  /** One replacement is not enough: joining what surrounds a comment can form another. */
  lemma OnceCanReveal(text: string)
    requires '<' !in text
    ensures HasComment(StripOnce("<!-" + ("<!---->" + ("-" + text + "-->"))))
  {
    var rest := "-" + text + "-->";
    StripsEmptyComment(rest);
    HalfOpening("<!---->" + rest);
    WrapIsComment(text);
  }

  lemma WrapIsComment(text: string)
    ensures HasComment("<!-" + ("-" + text + "-->"))
  {
    var t := "<!-" + ("-" + text + "-->");
    assert t[0..4] == OPEN;
    assert t[|text| + 4..|text| + 7] == CLOSE;
    assert OpensAt(t, 0) && ClosesAt(t, |text| + 4);
  }

  lemma HalfOpening(s: string)
    requires |s| >= 4 && s[0] != '-'
    ensures StripOnce("<!-" + s) == "<!-" + StripOnce(s)
  {
    var s1 := ['-'] + s;
    var s2 := ['!'] + s1;
    KeepsChar('-', s);
    KeepsChar('!', s1);
    KeepsChar('<', s2);
    HalfOpeningIs(s);
    HalfOpeningIs(StripOnce(s));
  }

  lemma HalfOpeningIs(s: string)
    ensures "<!-" + s == ['<'] + (['!'] + (['-'] + s))
  {
  }

  lemma KeepsChar(c: char, s: string)
    requires |s| >= 4 && (c != '<' || s[2] != '-')
    ensures StripOnce([c] + s) == [c] + StripOnce(s)
  {
    var t := [c] + s;
    assert t[0..4][0] == c && t[0..4][3] == s[2];
    assert t[1..] == s;
  }

  lemma StripsEmptyComment(rest: string)
    requires '<' !in rest
    ensures StripOnce("<!---->" + rest) == rest
  {
    var s := "<!---->" + rest;
    assert OpensAt(s, 0) && ClosesAt(s, 4);
    assert FindClose(s, 4) == Some(4);
    assert s[7..] == rest;
    NoOpening(rest);
  }

  lemma NoOpening(s: string)
    requires '<' !in s
    ensures StripOnce(s) == s
  {
    StripOnceStableIff(s);
    forall i: nat | i + 4 <= |s| ensures !OpensAt(s, i) {
      assert s[i..i + 4][0] == s[i] != '<';
    }
  }

  /**
   * The loop of `copyViewsSync`. It ends; the result has no complete comment left, differs from the
   * template only by deleted comments, and is the template itself when there was none.
   */
  method StripComments(template: string) returns (content: string)
    ensures !HasComment(content) && StripOnce(content) == content
    ensures exists n: nat :: Removed(n, template, content)
    ensures Subsequence(content, template)
  {
    var previous := template;
    ghost var n: nat := StripOnceDeletes(previous);
    content := StripOnce(previous);
    StripOnceStableIff(previous);
    while content != previous
      invariant Removed(n, template, content)
      invariant content == StripOnce(previous)
      invariant content == previous <==> !HasComment(previous)
      invariant content != previous ==> |content| < |previous|
      decreases |previous|
    {
      previous := content;
      content := StripOnce(previous);
      n := RemovedByNext(n, template, previous);
      StripOnceStableIff(previous);
    }
    DeletionsShrink(n, template, content);
  }

  /** `content` is `template` less `n` comments, at least one if it had any. */
  ghost predicate Removed(n: nat, template: string, content: string) {
    DeletesMany(n, template, content) && (n == 0 <==> !HasComment(template))
  }

  lemma RemovedByNext(n: nat, template: string, content: string) returns (n': nat)
    requires Removed(n, template, content)
    ensures Removed(n', template, StripOnce(content))
  {
    var k := StripOnceDeletes(content);
    DeletionsCompose(n, k, template, content, StripOnce(content));
    n' := n + k;
  }
}
