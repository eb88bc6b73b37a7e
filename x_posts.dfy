/** `parse_x_posts`: the generated posts response read as a markdown bullet
    list, one post per line that begins with "- " once stripped. */
module XPosts {
  import opened Text

  const Marker: string := "- "

  /** The line, once stripped, starts with the bullet marker. */
  predicate IsBulletLine(line: string)
  {
    StartsWith(Strip(line), Marker)
  }

  /** `line[2:].strip()` of the stripped line: the post a bullet line carries. */
  function PostOf(line: string): (post: string)
    requires IsBulletLine(line)
    ensures IsStripped(post)
    ensures post != []
  {
    var t := Strip(line);
    StripIsStripped(line);
    assert |t| >= 3 by {
      assert t[1] == ' ';
    }
    StripKeepsLast(t[2..]);
    StripIsStripped(t[2..]);
    Strip(t[2..])
  }

  /** The posts carried by `lines`, in line order. */
  function BulletPosts(lines: seq<string>): (posts: seq<string>)
    ensures |posts| <= |lines|
  {
    if lines == [] then []
    else
      var last := lines[|lines| - 1];
      BulletPosts(lines[..|lines| - 1]) + (if IsBulletLine(last) then [PostOf(last)] else [])
  }

  /** The loop of `parse_x_posts` over `x_posts_text.split("\n")`. */
  method ParseXPosts(text: string) returns (posts: seq<string>)
    ensures posts == BulletPosts(Split(text, '\n'))
  {
    var lines := Split(text, '\n');
    posts := [];
    var n := 0;
    while n < |lines|
      invariant 0 <= n <= |lines|
      invariant posts == BulletPosts(lines[..n])
    {
      var line := Strip(lines[n]);
      if StartsWith(line, Marker) {
        var post := Strip(line[2..]);
        posts := posts + [post];
      }
      assert lines[..n + 1][..n] == lines[..n];
      n := n + 1;
    }
    assert lines[..n] == lines;
  }

  /** Every post comes from a bullet line of the input. */
  lemma {:induction false} PostComesFromBulletLine(lines: seq<string>, p: string) returns (k: nat)
    requires p in BulletPosts(lines)
    ensures k < |lines| && IsBulletLine(lines[k]) && p == PostOf(lines[k])
  {
    var n := |lines| - 1;
    var init := lines[..n];
    if p in BulletPosts(init) {
      k := PostComesFromBulletLine(init, p);
    } else {
      k := n;
    }
  }

  /** Every bullet line of the input yields its post. */
  lemma {:induction false} BulletLineYieldsPost(lines: seq<string>, k: nat)
    requires k < |lines| && IsBulletLine(lines[k])
    ensures PostOf(lines[k]) in BulletPosts(lines)
  {
    var n := |lines| - 1;
    if k < n {
      BulletLineYieldsPost(lines[..n], k);
    }
  }

  /** Parsing goes line by line: the posts of two blocks of lines are the
      posts of the first followed by those of the second. */
  lemma {:induction false} BulletPostsAppend(a: seq<string>, b: seq<string>)
    ensures BulletPosts(a + b) == BulletPosts(a) + BulletPosts(b)
  {
    if b == [] {
      assert a + b == a;
    } else {
      var init := b[..|b| - 1];
      assert (a + b)[..|a + b| - 1] == a + init;
      assert (a + b)[|a + b| - 1] == b[|b| - 1];
      BulletPostsAppend(a, init);
    }
  }

  /** A response with no bullet line yields no posts. */
  lemma NoBulletNoPosts(text: string)
    requires forall l :: l in Split(text, '\n') ==> !IsBulletLine(l)
    ensures BulletPosts(Split(text, '\n')) == []
  {
    var lines := Split(text, '\n');
    if BulletPosts(lines) != [] {
      var p := BulletPosts(lines)[0];
      var k := PostComesFromBulletLine(lines, p);
      assert false;
    }
  }

  /** Every parsed post is non-empty, carries no surrounding whitespace and
      spans a single line of the response. */
  lemma ParsedPostsAreSingleTrimmedLines(text: string, p: string)
    requires p in BulletPosts(Split(text, '\n'))
    ensures p != [] && IsStripped(p) && '\n' !in p
  {
    var lines := Split(text, '\n');
    var k := PostComesFromBulletLine(lines, p);
    var l := lines[k];
    assert '\n' !in l;
    StripKeepsOut(l, '\n');
    var t := Strip(l);
    assert '\n' !in t[2..];
    StripKeepsOut(t[2..], '\n');
  }

  /** A line made of the marker and a stripped post yields that post. */
  lemma BulletOf(post: string)
    requires post != [] && IsStripped(post)
    ensures BulletPosts([Marker + post]) == [post]
  {
    var line := Marker + post;
    assert line[|line| - 1] == post[|post| - 1];
    StripStripped(line);
    assert line[2..] == post;
    StripStripped(post);
    assert [line][..0] == [];
  }

  /** A stripped line that does not start with the marker yields nothing. */
  lemma PlainLine(line: string)
    requires IsStripped(line) && !StartsWith(line, Marker)
    ensures BulletPosts([line]) == []
  {
    StripStripped(line);
    assert [line][..0] == [];
  }

  /** Two bullet lines between two plain lines yield exactly the two posts. */
  lemma BulletsBetweenPlainLines(intro: string, p1: string, p2: string, trailing: string)
    requires IsStripped(intro) && !StartsWith(intro, Marker)
    requires IsStripped(trailing) && !StartsWith(trailing, Marker)
    requires p1 != [] && IsStripped(p1) && p2 != [] && IsStripped(p2)
    ensures BulletPosts([intro, Marker + p1, Marker + p2, trailing]) == [p1, p2]
  {
    var b, c := Marker + p1, Marker + p2;
    PlainLine(intro);
    BulletOf(p1);
    BulletOf(p2);
    PlainLine(trailing);
    BulletPostsAppend([intro], [b]);
    BulletPostsAppend([intro] + [b], [c]);
    BulletPostsAppend([intro] + [b] + [c], [trailing]);
    assert [intro, b, c, trailing] == [intro] + [b] + [c] + [trailing];
  }

  /** A response made of a plain line, two bullet lines and a plain line,
      one per line, parses to exactly the two posts. */
  lemma TwoBulletResponse(intro: string, p1: string, p2: string, trailing: string)
    requires IsStripped(intro) && !StartsWith(intro, Marker) && '\n' !in intro
    requires IsStripped(trailing) && !StartsWith(trailing, Marker) && '\n' !in trailing
    requires p1 != [] && IsStripped(p1) && '\n' !in p1
    requires p2 != [] && IsStripped(p2) && '\n' !in p2
    ensures BulletPosts(Split(intro + "\n" + (Marker + p1 + "\n" + (Marker + p2 + "\n" + trailing)), '\n')) == [p1, p2]
  {
    var b, c := Marker + p1, Marker + p2;
    assert '\n' !in b && '\n' !in c;
    SplitFourLines(intro, b, c, trailing, '\n');
    BulletsBetweenPlainLines(intro, p1, p2, trailing);
  }
}
