/** The auto-managed block of generated module paths in a CMakeLists.txt
    (`update_cmake_modules`), on the text of the file. */
module CMake {
  import opened Strings

  const AutoBegin: string := "# AUTOGEN RS MODULES BEGIN"
  const AutoEnd: string := "# AUTOGEN RS MODULES END"
  const TargetSources: string := "target_sources("

  /** `"\n".join([AUTO_BEGIN] + paths + [AUTO_END])` */
  function Block(paths: seq<string>): string
  {
    Join("\n", [AutoBegin] + paths + [AutoEnd])
  }

  /** The new text of the file: an existing block (from the first BEGIN to
      the first END after it) is replaced; otherwise the block goes in
      front of the first `target_sources(`, or at the end of the trimmed
      text. A BEGIN with every END before it fails, as the two-way
      unpacking of the split does. */
  function Splice(text: string, paths: seq<string>): (r: Result<string>)
    ensures r.Err? ==> Contains(text, AutoBegin) && Contains(text, AutoEnd)
  {
    SpliceWith(text, AutoBegin, AutoEnd, TargetSources, Block(paths))
  }

  /** The splice for markers `begin` and `end` and insertion point `anchor`. */
  function SpliceWith(text: string, begin: string, end: string, anchor: string, block: string): (r: Result<string>)
    ensures r.Err? ==> Contains(text, begin) && Contains(text, end)
  {
    if Contains(text, begin) && Contains(text, end) then
      var i := Find(text, begin);
      var rest := text[i + |begin|..];
      var j := Find(rest, end);
      if j < 0 then Err("ValueError: not enough values to unpack")
      else Ok(text[..i] + block + rest[j + |end|..])
    else
      var k := Find(text, anchor);
      if k < 0 then Ok(RStrip(text) + "\n" + block + "\n")
      else Ok(text[..k] + block + "\n" + text[k..])
  }

  // ------------------------------------------------------------------ the shape of the block

  /** Each path followed by a line break. */
  function Lines(paths: seq<string>): string
  {
    if paths == [] then "" else paths[0] + "\n" + Lines(paths[1..])
  }

  lemma {:induction false} JoinWithLast(paths: seq<string>, last: string)
    ensures Join("\n", paths + [last]) == Lines(paths) + last
  {
    if paths == [] {
      assert paths + [last] == [last];
    } else {
      assert (paths + [last])[1..] == paths[1..] + [last];
      JoinWithLast(paths[1..], last);
    }
  }

  lemma BlockShape(paths: seq<string>)
    ensures Block(paths) == AutoBegin + "\n" + Lines(paths) + AutoEnd
  {
    var all := [AutoBegin] + paths + [AutoEnd];
    assert all[1..] == paths + [AutoEnd];
    JoinWithLast(paths, AutoEnd);
  }

  // ------------------------------------------------------------------ finding the markers again

  /** The first character of the word does not recur in it, so no
      occurrence can overlap the start of another. */
  predicate Unbordered(w: string)
  {
    w != [] && w[0] !in w[1..]
  }

  lemma BeginUnbordered()
    ensures Unbordered(AutoBegin)
  {
  }

  lemma EndUnbordered()
    ensures Unbordered(AutoEnd)
  {
  }

  lemma BeginOneLine()
    ensures '\n' !in AutoBegin
  {
  }

  lemma EndOneLine()
    ensures '\n' !in AutoEnd
  {
  }

  lemma MarkersUnbordered()
    ensures Unbordered(AutoBegin) && Unbordered(AutoEnd)
    ensures '\n' !in AutoBegin && '\n' !in AutoEnd
  {
    BeginUnbordered();
    EndUnbordered();
    BeginOneLine();
    EndOneLine();
  }

  lemma NotInPrefix(s: string, w: string, n: nat)
    requires n <= |s| && !Contains(s, w)
    ensures !Contains(s[..n], w)
  {
    forall j | OccursAt(s[..n], w, j) ensures OccursAt(s, w, j) {
      assert s[..n][j..j + |w|] == s[j..j + |w|];
    }
    ContainsIff(s[..n], w);
  }

  /** A prefix ahead of the first occurrence contains none. */
  lemma BeforeFirst(s: string, w: string)
    requires w != [] && Contains(s, w)
    ensures !Contains(s[..Find(s, w)], w)
  {
    var i := Find(s, w);
    forall j | OccursAt(s[..i], w, j) ensures false {
      assert s[..i][j..j + |w|] == s[j..j + |w|];
      assert OccursAt(s, w, j);
    }
    ContainsIff(s[..i], w);
  }

  /** In `pre + w + post` with a clean `pre`, the first `w` is the one after `pre`. */
  lemma {:induction false} FindAfterClean(pre: string, w: string, post: string)
    requires Unbordered(w) && !Contains(pre, w)
    ensures Find(pre + w + post, w) == |pre|
  {
    var s := pre + w + post;
    assert s[|pre|..|pre| + |w|] == w;
    assert OccursAt(s, w, |pre|);
    forall j | 0 <= j < |pre| ensures !OccursAt(s, w, j) {
      if OccursAt(s, w, j) {
        if j + |w| <= |pre| {
          assert s[j..j + |w|] == pre[j..j + |w|];
          assert OccursAt(pre, w, j);
          ContainsIff(pre, w);
        }
      }
    }
  }

  /** Every character of an occurrence is a character of the word. */
  lemma InWindow(s: string, w: string, j: nat, k: nat)
    requires OccursAt(s, w, j) && j <= k < j + |w|
    ensures s[k] in w
  {
    assert s[k] == s[j..j + |w|][k - j];
  }

  /** An occurrence ending by position `n` is an occurrence in the first `n` characters. */
  lemma OccursInPrefix(s: string, w: string, j: nat, n: nat)
    requires OccursAt(s, w, j) && j + |w| <= n <= |s|
    ensures OccursAt(s[..n], w, j)
  {
    assert s[..n][j..j + |w|] == s[j..j + |w|];
  }

  /** An occurrence starting at or after position `n` is an occurrence in the rest. */
  lemma OccursInSuffix(s: string, w: string, j: nat, n: nat)
    requires OccursAt(s, w, j) && n <= j
    ensures OccursAt(s[n..], w, j - n)
  {
    assert s[n..][j - n..j - n + |w|] == s[j..j + |w|];
  }

  /** A separator character that the word lacks keeps two clean halves clean. */
  lemma SeparatedClean(a: string, c: char, b: string, w: string)
    requires w != [] && c !in w && !Contains(a, w) && !Contains(b, w)
    ensures !Contains(a + [c] + b, w)
  {
    var s := a + [c] + b;
    forall j | OccursAt(s, w, j) ensures false {
      if j + |w| <= |a| {
        OccursInPrefix(s, w, j, |a|);
        assert s[..|a|] == a;
        OccursContains(a, w, j);
      } else if j > |a| {
        OccursInSuffix(s, w, j, |a| + 1);
        assert s[|a| + 1..] == b;
        OccursContains(b, w, j - |a| - 1);
      } else {
        InWindow(s, w, j, |a|);
      }
    }
    ContainsIff(s, w);
  }

  lemma {:induction false} LinesClean(paths: seq<string>, w: string)
    requires w != [] && '\n' !in w
    requires forall i :: 0 <= i < |paths| ==> !Contains(paths[i], w)
    ensures !Contains(Lines(paths), w)
  {
    if paths != [] {
      LinesClean(paths[1..], w);
      SeparatedClean(paths[0], '\n', Lines(paths[1..]), w);
      assert Lines(paths) == paths[0] + ['\n'] + Lines(paths[1..]);
    }
  }

  // ------------------------------------------------------------------ properties of the splice

  /** A block between two texts occurs right after the first. */
  lemma BlockBetween(x: string, block: string, y: string)
    ensures Contains(x + block + y, block)
  {
    assert (x + block + y)[|x|..|x| + |block|] == block;
    OccursContains(x + block + y, block, |x|);
  }

  /** A successful splice leaves the block in the text. */
  lemma SpliceContainsBlock(text: string, paths: seq<string>)
    requires Splice(text, paths).Ok?
    ensures Contains(Splice(text, paths).value, Block(paths))
  {
    if Contains(text, AutoBegin) && Contains(text, AutoEnd) {
      ReplacedContainsBlock(text, AutoBegin, AutoEnd, TargetSources, Block(paths));
    } else {
      InsertedContainsBlock(text, AutoBegin, AutoEnd, TargetSources, Block(paths));
    }
  }

  lemma ReplacedContainsBlock(text: string, begin: string, end: string, anchor: string, block: string)
    requires Contains(text, begin) && Contains(text, end)
    requires SpliceWith(text, begin, end, anchor, block).Ok?
    ensures Contains(SpliceWith(text, begin, end, anchor, block).value, block)
  {
    var i := Find(text, begin);
    var rest := text[i + |begin|..];
    BlockBetween(text[..i], block, rest[Find(rest, end) + |end|..]);
  }

  lemma InsertedContainsBlock(text: string, begin: string, end: string, anchor: string, block: string)
    requires !(Contains(text, begin) && Contains(text, end))
    ensures Contains(SpliceWith(text, begin, end, anchor, block).value, block)
  {
    var k := Find(text, anchor);
    if k < 0 {
      BlockBetween(RStrip(text) + "\n", block, "\n");
    } else {
      BlockBetween(text[..k], block, "\n" + text[k..]);
      assert text[..k] + block + "\n" + text[k..] == text[..k] + block + ("\n" + text[k..]);
    }
  }

  /** An occurrence makes `Contains` true. */
  lemma OccursContains(s: string, w: string, i: int)
    requires OccursAt(s, w, i)
    ensures Contains(s, w)
  {
  }

  /** The replacing branch of the splice, once both markers are located. */
  lemma SpliceWithReplaces(text: string, begin: string, end: string, anchor: string, block: string, i: nat, j: nat)
    requires Find(text, begin) == i && Contains(text, end) && i + |begin| <= |text|
    requires Find(text[i + |begin|..], end) == j && j + |end| <= |text[i + |begin|..]|
    ensures SpliceWith(text, begin, end, anchor, block) == Ok(text[..i] + block + text[i + |begin|..][j + |end|..])
  {
  }

  /** An occurrence after position `at` is an occurrence in the whole text. */
  lemma EndContained(text: string, at: nat, end: string, j: nat)
    requires at <= |text| && OccursAt(text[at..], end, j)
    ensures Contains(text, end)
  {
    assert text[at..][j..j + |end|] == text[at + j..at + j + |end|];
    OccursContains(text, end, at + j);
  }

  /** The BEGIN marker after a prefix without it is found right after the prefix. */
  lemma BeginLocated(pre: string, begin: string, tail: string, r: string)
    requires Unbordered(begin) && !Contains(pre, begin) && r == pre + begin + tail
    ensures Find(r, begin) == |pre| && r[|pre| + |begin|..] == tail && r[..|pre|] == pre
  {
    FindAfterClean(pre, begin, tail);
  }

  /** The END marker after a middle part without it is found right after that part. */
  lemma EndLocated(middle: string, end: string, post: string, tail: string)
    requires Unbordered(end) && !Contains(middle, end) && tail == middle + end + post
    ensures Find(tail, end) == |middle| && tail[|middle| + |end|..] == post
  {
    FindAfterClean(middle, end, post);
  }

  /** For unbordered markers: a text holding `begin + middle + end` after a
      prefix without `begin`, with no `end` inside `middle`, splices that part. */
  lemma {:induction false} SpliceWithAroundBlock(pre: string, begin: string, middle: string, end: string, post: string, anchor: string, block: string)
    requires Unbordered(begin) && Unbordered(end)
    requires !Contains(pre, begin) && !Contains(middle, end)
    ensures SpliceWith(pre + begin + middle + end + post, begin, end, anchor, block) == Ok(pre + block + post)
  {
    var tail := middle + end + post;
    var r := pre + begin + middle + end + post;
    assert r == pre + begin + tail;
    BeginLocated(pre, begin, tail, r);
    EndLocated(middle, end, post, tail);
    EndContained(r, |pre| + |begin|, end, |middle|);
    SpliceWithReplaces(r, begin, end, anchor, block, |pre|, |middle|);
  }

  /** A character that the word lacks, put in front of a clean text, keeps it clean. */
  lemma PrefixClean(c: char, b: string, w: string)
    requires w != [] && c !in w && !Contains(b, w)
    ensures !Contains([c] + b, w)
  {
    assert !Contains([], w) by { ContainsIff([], w); }
    SeparatedClean([], c, b, w);
    assert [] + [c] + b == [c] + b;
  }

  /** A line break ahead of clean lines adds no occurrence of a word without line breaks. */
  lemma MiddleClean(paths: seq<string>, w: string)
    requires w != [] && '\n' !in w
    requires forall i :: 0 <= i < |paths| ==> !Contains(paths[i], w)
    ensures !Contains("\n" + Lines(paths), w)
  {
    LinesClean(paths, w);
    PrefixClean('\n', Lines(paths), w);
  }

  /** The block is BEGIN, a middle part free of END, and END. */
  lemma BlockMiddle(paths: seq<string>)
    requires forall i :: 0 <= i < |paths| ==> !Contains(paths[i], AutoEnd)
    ensures Block(paths) == AutoBegin + ("\n" + Lines(paths)) + AutoEnd
    ensures !Contains("\n" + Lines(paths), AutoEnd)
  {
    BlockShape(paths);
    Regroup(AutoBegin, "\n", Lines(paths), AutoEnd);
    MarkersUnbordered();
    MiddleClean(paths, AutoEnd);
  }

  lemma Regroup(a: string, b: string, c: string, d: string)
    ensures a + b + c + d == a + (b + c) + d
  {
  }

  lemma Reassociate(pre: string, x: string, post: string, b: string, m: string, e: string)
    requires x == b + m + e
    ensures pre + x + post == pre + b + m + e + post
  {
  }

  /** A text holding the block after a prefix without BEGIN splices to itself. */
  lemma SpliceAroundBlock(pre: string, paths: seq<string>, post: string)
    requires !Contains(pre, AutoBegin)
    requires forall i :: 0 <= i < |paths| ==> !Contains(paths[i], AutoEnd)
    ensures Splice(pre + Block(paths) + post, paths) == Ok(pre + Block(paths) + post)
  {
    var middle := "\n" + Lines(paths);
    var block := Block(paths);
    BlockMiddle(paths);
    MarkersUnbordered();
    Reassociate(pre, block, post, AutoBegin, middle, AutoEnd);
    SpliceWithAroundBlock(pre, AutoBegin, middle, AutoEnd, post, TargetSources, block);
  }

  /** Splicing the same paths a second time changes nothing, provided no path
      contains the END marker and the text has no BEGIN marker without an END. */
  lemma SpliceIdempotent(text: string, paths: seq<string>)
    requires Splice(text, paths).Ok?
    requires forall i :: 0 <= i < |paths| ==> !Contains(paths[i], AutoEnd)
    requires Contains(text, AutoBegin) ==> Contains(text, AutoEnd)
    ensures Splice(Splice(text, paths).value, paths) == Splice(text, paths)
  {
    var r := Splice(text, paths).value;
    var block := Block(paths);
    MarkersUnbordered();
    if Contains(text, AutoBegin) && Contains(text, AutoEnd) {
      var i := Find(text, AutoBegin);
      var rest := text[i + |AutoBegin|..];
      var j := Find(rest, AutoEnd);
      BeforeFirst(text, AutoBegin);
      SpliceAroundBlock(text[..i], paths, rest[j + |AutoEnd|..]);
    } else {
      var k := Find(text, TargetSources);
      if k < 0 {
        var pre := RStrip(text) + "\n";
        NotInPrefix(text, AutoBegin, |RStrip(text)|);
        assert !Contains([], AutoBegin) by { ContainsIff([], AutoBegin); }
        SeparatedClean(RStrip(text), '\n', [], AutoBegin);
        assert RStrip(text) + ['\n'] + [] == pre;
        assert r == pre + block + "\n";
        SpliceAroundBlock(pre, paths, "\n");
      } else {
        NotInPrefix(text, AutoBegin, k);
        assert r == text[..k] + block + ("\n" + text[k..]);
        SpliceAroundBlock(text[..k], paths, "\n" + text[k..]);
      }
    }
  }
}
