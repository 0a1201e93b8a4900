/** Topic filters (src/topic.rs): splitting on '/', the matching loop, and what it means. */
module Topic {

  // Each char stands for one byte of the UTF-8 text. '/', '+' and '#' never occur inside a
  // multi-byte character, so splitting bytes and splitting characters give the same levels.
  type Text = string

  // ---------------------------------------------------------------- splitting

  /** The levels of a text whose first character is `c` and whose rest has these levels. */
  function Prepend(c: char, levels: seq<Text>): seq<Text>
    requires |levels| >= 1
  {
    if c == '/' then [""] + levels else [[c] + levels[0]] + levels[1..]
  }

  /** The pieces `s.split('/')` yields, in order. */
  function Split(s: Text): (levels: seq<Text>)
    ensures |levels| >= 1
    ensures forall i :: 0 <= i < |levels| ==> '/' !in levels[i]
  {
    if s == "" then [""] else Prepend(s[0], Split(s[1..]))
  }

  function Join(levels: seq<Text>): Text
    requires |levels| >= 1
  {
    if |levels| == 1 then levels[0] else levels[0] + "/" + Join(levels[1..])
  }

  ghost predicate Slashless(levels: seq<Text>) {
    forall i :: 0 <= i < |levels| ==> '/' !in levels[i]
  }

  lemma {:induction false} JoinSplit(s: Text)
    ensures Join(Split(s)) == s
  {
    if s != "" {
      JoinSplit(s[1..]);
      var rest := Split(s[1..]);
      if s[0] == '/' {
        assert ([""] + rest)[1..] == rest;
        assert s == "/" + s[1..];
      } else {
        assert ([[s[0]] + rest[0]] + rest[1..])[1..] == rest[1..];
        assert s == [s[0]] + s[1..];
      }
    }
  }

  lemma SplitCons(c: char, s: Text)
    ensures Split([c] + s) == Prepend(c, Split(s))
  {
    assert ([c] + s)[1..] == s;
  }

  lemma PrependConcat(c: char, l: seq<Text>, r: seq<Text>)
    requires |l| >= 1
    ensures Prepend(c, l + r) == Prepend(c, l) + r
  {
    assert (l + r)[1..] == l[1..] + r;
  }

  lemma {:induction false} SplitConcat(a: Text, b: Text)
    ensures Split(a + "/" + b) == Split(a) + Split(b)
  {
    if a == "" {
      assert a + "/" + b == ['/'] + b;
      SplitCons('/', b);
    } else {
      var c, rest := a[0], a[1..];
      assert a == [c] + rest;
      assert a + "/" + b == [c] + (rest + "/" + b);
      SplitCons(c, rest + "/" + b);
      SplitConcat(rest, b);
      SplitCons(c, rest);
      PrependConcat(c, Split(rest), Split(b));
    }
  }

  lemma {:induction false} SplitSlashless(s: Text)
    requires '/' !in s
    ensures Split(s) == [s]
  {
    if s != "" {
      SplitSlashless(s[1..]);
      assert s == [s[0]] + s[1..];
    }
  }

  lemma {:induction false} SplitJoin(levels: seq<Text>)
    requires |levels| >= 1 && Slashless(levels)
    ensures Split(Join(levels)) == levels
  {
    SplitSlashless(levels[0]);
    if |levels| > 1 {
      SplitJoin(levels[1..]);
      SplitConcat(levels[0], Join(levels[1..]));
      assert levels == [levels[0]] + levels[1..];
    } else {
      assert levels == [levels[0]];
    }
  }

  /** Two texts with the same levels are the same text. */
  lemma SplitInjective(s: Text, t: Text)
    requires Split(s) == Split(t)
    ensures s == t
  {
    JoinSplit(s);
    JoinSplit(t);
  }

  // ---------------------------------------------------------------- meaning

  /** Position of the first "#" level, or the number of levels when there is none. */
  function FirstHash(f: seq<Text>): (k: nat)
    ensures k <= |f|
    ensures k < |f| ==> f[k] == "#"
    ensures forall i :: 0 <= i < k ==> f[i] != "#"
  {
    if f == [] || f[0] == "#" then 0 else 1 + FirstHash(f[1..])
  }

  predicate LevelMatches(t: Text, f: Text) {
    f == "+" || f == t
  }

  /** What a filter means: its levels before the first "#" match the topic's one by one;
      with a "#" the topic may go on (or stop right there), without one it may not. */
  predicate LevelsMatch(t: seq<Text>, f: seq<Text>) {
    var k := FirstHash(f);
    && (if k < |f| then k <= |t| else |t| == |f|)
    && forall i :: 0 <= i < k ==> LevelMatches(t[i], f[i])
  }

  predicate Matches(topic: Text, filter: Text) {
    LevelsMatch(Split(topic), Split(filter))
  }

  lemma Peel(t: seq<Text>, f: seq<Text>)
    requires t != [] && f != [] && f[0] != "#"
    ensures LevelsMatch(t, f) <==> LevelMatches(t[0], f[0]) && LevelsMatch(t[1..], f[1..])
  {
    var k := FirstHash(f);
    assert k == 1 + FirstHash(f[1..]);
    if LevelMatches(t[0], f[0]) && LevelsMatch(t[1..], f[1..]) {
      forall i | 0 <= i < k ensures LevelMatches(t[i], f[i]) {
        if i > 0 { assert LevelMatches(t[1..][i - 1], f[1..][i - 1]); }
      }
    }
    if LevelsMatch(t, f) {
      forall i | 0 <= i < k - 1 ensures LevelMatches(t[1..][i], f[1..][i]) {
        assert LevelMatches(t[i + 1], f[i + 1]);
      }
    }
  }

  /** The loop of topic_matches; `t` and `f` hold what the two split iterators have left. */
  method TopicMatches(topic: Text, filter: Text) returns (r: bool)
    ensures r == Matches(topic, filter)
  {
    var t, f := Split(topic), Split(filter);
    while true
      invariant LevelsMatch(t, f) == Matches(topic, filter)
      decreases |f|
    {
      if f != [] && f[0] == "#" {
        return true;
      } else if f != [] && t != [] && (f[0] == "+" || f[0] == t[0]) {
        Peel(t, f);
        t, f := t[1..], f[1..];
      } else if f == [] && t == [] {
        return true;
      } else {
        if t != [] && f != [] { Peel(t, f); }
        return false;
      }
    }
  }

  // ---------------------------------------------------------------- filters without wildcards

  predicate HasWildcard(filter: Text) {
    exists i :: 0 <= i < |filter| && (filter[i] == '+' || filter[i] == '#')
  }

  lemma {:induction false} SplitChars(s: Text, i: nat, c: char)
    requires i < |Split(s)| && c in Split(s)[i]
    ensures c in s
  {
    if s != "" {
      var rest := Split(s[1..]);
      if s[0] == '/' {
        if i > 0 { SplitChars(s[1..], i - 1, c); }
      } else if i > 0 {
        SplitChars(s[1..], i, c);
      } else if c != s[0] {
        assert c in rest[0];
        SplitChars(s[1..], 0, c);
      }
    }
  }

  /** A filter without wildcard characters matches exactly one topic: itself. */
  lemma WildcardFreeIsEquality(topic: Text, filter: Text)
    requires !HasWildcard(filter)
    ensures Matches(topic, filter) <==> topic == filter
  {
    var t, f := Split(topic), Split(filter);
    forall i | 0 <= i < |f| ensures f[i] != "+" && f[i] != "#" {
      if '+' in f[i] { SplitChars(filter, i, '+'); }
      if '#' in f[i] { SplitChars(filter, i, '#'); }
    }
    assert FirstHash(f) == |f|;
    if Matches(topic, filter) {
      assert forall i :: 0 <= i < |f| ==> LevelMatches(t[i], f[i]);
      assert t == f;
      SplitInjective(topic, filter);
    }
  }

  // ---------------------------------------------------------------- transitivity

  ghost predicate HashFree(filter: Text) {
    forall i :: 0 <= i < |Split(filter)| ==> Split(filter)[i] != "#"
  }

  lemma TransitiveWhenHashFree(t: Text, f: Text, g: Text)
    requires HashFree(f) && Matches(t, f) && Matches(f, g)
    ensures Matches(t, g)
  {
    var ts, fs, gs := Split(t), Split(f), Split(g);
    assert FirstHash(fs) == |fs|;
    forall i | 0 <= i < FirstHash(gs) ensures LevelMatches(ts[i], gs[i]) {
      assert LevelMatches(ts[i], fs[i]) && LevelMatches(fs[i], gs[i]);
    }
  }

  /** A filter with a "#" level: a topic it matches and a filter it is matched by that disagree. */
  lemma HashBreaksTransitivity(f: Text) returns (t: Text, g: Text)
    requires !HashFree(f)
    ensures Matches(t, f) && Matches(f, g) && !Matches(t, g)
  {
    var fs := Split(f);
    var k := FirstHash(fs);
    var ts := fs[..k] + seq(|fs| - k + 1, i => "a");
    var gs := seq(|fs|, i => "+");
    SplitJoin(ts);
    SplitJoin(gs);
    t, g := Join(ts), Join(gs);
    assert FirstHash(gs) == |gs|;
  }

  /** For instance: topic "a/b" matches "#", "#" matches "+", but "a/b" does not match "+". */
  lemma HashExample()
    ensures Matches("a/b", "#") && Matches("#", "+") && !Matches("a/b", "+")
  {
    SplitSlashless("#");
    SplitSlashless("+");
    SplitSlashless("a");
    SplitSlashless("b");
    SplitConcat("a", "b");
    assert "a/b" == "a" + "/" + "b";
    assert Split("a/b") == ["a", "b"];
  }

  /** Matching may be chained through `f` (read as a filter, then as a topic) exactly when
      no level of `f` is "#". */
  lemma TransitiveIffHashFree(f: Text)
    ensures HashFree(f) <==> forall t, g :: Matches(t, f) && Matches(f, g) ==> Matches(t, g)
  {
    if HashFree(f) {
      forall t, g | Matches(t, f) && Matches(f, g) ensures Matches(t, g) {
        TransitiveWhenHashFree(t, f, g);
      }
    } else {
      var t, g := HashBreaksTransitivity(f);
    }
  }

  // ---------------------------------------------------------------- a user's own topics

  predicate SegmentChar(c: char) {
    'a' <= c <= 'z' || 'A' <= c <= 'Z' || '0' <= c <= '9' || c == '_' || c == '-'
  }

  predicate ValidSegment(s: Text) {
    0 < |s| <= 64 && forall i :: 0 <= i < |s| ==> SegmentChar(s[i])
  }

  function PersonalFilter(userid: Text): Text {
    "+/" + userid + "/#"
  }

  lemma PersonalFilterLevels(userid: Text)
    requires '/' !in userid
    ensures Split(PersonalFilter(userid)) == ["+", userid, "#"]
  {
    var head := "+" + "/" + userid;
    assert PersonalFilter(userid) == head + "/" + "#";
    SplitConcat(head, "#");
    SplitConcat("+", userid);
    SplitSlashless("+");
    SplitSlashless("#");
    SplitSlashless(userid);
  }

  /** The personal filter of an accepted userid selects the topics whose second level is it. */
  lemma PersonalFilterMeaning(topic: Text, userid: Text)
    requires ValidSegment(userid)
    ensures Matches(topic, PersonalFilter(userid))
       <==> |Split(topic)| >= 2 && Split(topic)[1] == userid
  {
    PersonalFilterLevels(userid);
    var f := ["+", userid, "#"];
    assert userid != "#" && userid != "+" by { assert SegmentChar(userid[0]); }
    assert FirstHash(f) == 2 by {
      assert f[0] != "#" && f[1] != "#" && f[2] == "#";
    }
    assert LevelMatches(Split(topic)[0], f[0]);
    if |Split(topic)| >= 2 {
      assert LevelMatches(Split(topic)[1], f[1]) <==> Split(topic)[1] == userid;
    }
  }

  /** No topic belongs to the personal filters of two different users. */
  lemma PersonalFiltersDisjoint(topic: Text, u: Text, v: Text)
    requires ValidSegment(u) && ValidSegment(v)
    requires Matches(topic, PersonalFilter(u)) && Matches(topic, PersonalFilter(v))
    ensures u == v
  {
    PersonalFilterMeaning(topic, u);
    PersonalFilterMeaning(topic, v);
  }
}
