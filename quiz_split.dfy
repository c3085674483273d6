/** A reply laid out the way the block separator of parseQuestions accepts
    it (SkillQuestions.kt:511), "Question 1: …Question 2: …", and
    the proof that splitting on the block separator gives the blocks back
    in order. */
module QuizSplit {
  import opened Text
  import opened SkillQuestions

  /** The separator written before each block, such as "Question 12: ". */
  function Marker(number: string): string
  {
    "Question " + number + ": "
  }

  /** One or more decimal digits. */
  predicate IsNumber(number: string)
  {
    |number| >= 1 && forall k :: 0 <= k < |number| ==> IsDigit(number[k])
  }

  /** A block the split hands back whole: not blank, no separator of its
      own, and no leading blank that the separator's trailing `\s*` would
      swallow. */
  predicate IsPlainBlock(b: string)
  {
    |b| >= 1 && !IsBlank(b) && !IsRegexSpace(b[0]) && NoMarkerIn(b)
  }

  /** The reply "Question n1: b1Question n2: b2…". */
  function Quiz(numbers: seq<string>, blocks: seq<string>): string
    requires |numbers| == |blocks|
  {
    if numbers == [] then [] else Marker(numbers[0]) + blocks[0] + Quiz(numbers[1..], blocks[1..])
  }

  predicate WellLaidOut(numbers: seq<string>, blocks: seq<string>)
  {
    && |numbers| == |blocks|
    && (forall i :: 0 <= i < |numbers| ==> IsNumber(numbers[i]))
    && (forall i :: 0 <= i < |blocks| ==> IsPlainBlock(blocks[i]))
  }

  /** Splitting such a reply on `(?i)Question(?:\s*\d+)?:\s*` and dropping
      blank pieces gives back exactly the blocks, in order. */
  lemma QuizBlocks(numbers: seq<string>, blocks: seq<string>)
    requires WellLaidOut(numbers, blocks)
    ensures Blocks(Quiz(numbers, blocks)) == blocks
  {
    var s := Quiz(numbers, blocks);
    if numbers == [] {
      assert SplitOnMarkers(s, 0, 0) == [""];
      NonBlankSingle("");
    } else {
      var m := Marker(numbers[0]);
      var tail := blocks[0] + Quiz(numbers[1..], blocks[1..]);
      var n := |m|;
      QuizHead(numbers, blocks, s, m, tail);
      MarkerThenRest(s, 0, m, tail, n);
      MarkerMatch(s, 0, numbers[0], n);
      SplitAtMarker(s, 0, 0, n);
      PiecesFrom(s, n, blocks[0], numbers[1..], blocks[1..]);
      assert s[0..0] == "";
      NonBlankAppend([""], blocks);
      NonBlankSingle("");
      PlainBlocksKept(blocks);
    }
  }

  /** Parsing such a reply yields one question per block, in order, when
      every block parses on its own. */
  lemma QuizQuestions(numbers: seq<string>, blocks: seq<string>)
    requires WellLaidOut(numbers, blocks)
    requires forall i :: 0 <= i < |blocks| ==> ParseBlock(blocks[i]).Some?
    ensures |ParsedQuestions(Blocks(Quiz(numbers, blocks)))| == |blocks|
    ensures forall i :: 0 <= i < |blocks| ==>
              ParsedQuestions(Blocks(Quiz(numbers, blocks)))[i] == ParseBlock(blocks[i]).value
  {
    QuizBlocks(numbers, blocks);
    AllBlocksParse(blocks);
  }

  /** After a separator, the split returns the block that follows and then
      the blocks after the next separators. */
  lemma {:induction false} PiecesFrom(s: string, e: nat, b: string, numbers: seq<string>, blocks: seq<string>)
    requires IsPlainBlock(b) && WellLaidOut(numbers, blocks)
    requires e <= |s| && s[e..] == b + Quiz(numbers, blocks)
    ensures SplitOnMarkers(s, e, e) == [b] + blocks
    decreases |blocks|
  {
    var z := e + |b|;
    var rest := Quiz(numbers, blocks);
    BlockThenRest(s, e, b, rest, z);
    if numbers == [] {
      LastPiece(s, e, b, z);
    } else {
      var m := Marker(numbers[0]);
      var more := Quiz(numbers[1..], blocks[1..]);
      var tail := blocks[0] + more;
      var n := z + |m|;
      LaidOutTail(numbers, blocks);
      QuizHead(numbers, blocks, rest, m, tail);
      MarkerThenRest(s, z, m, tail, n);
      NextMarker(s, z, numbers[0], blocks[0], more, n);
      PiecesFrom(s, n, blocks[0], numbers[1..], blocks[1..]);
      BlockThenMarker(s, e, b, z, n, blocks);
    }
  }

  /** A block followed by a matched separator is one piece, and the pieces
      after the separator follow it. */
  lemma BlockThenMarker(s: string, e: nat, b: string, z: nat, n: nat, blocks: seq<string>)
    requires IsPlainBlock(b) && e <= z < |s| && s[e..z] == b && s[z] == 'Q'
    requires MarkerEnd(s, z) == Some(n) && blocks != []
    requires SplitOnMarkers(s, n, n) == [blocks[0]] + blocks[1..]
    ensures SplitOnMarkers(s, e, e) == [b] + blocks
  {
    NoMarkerInBlock(s, e, z);
    SplitSkips(s, e, e, z);
    SplitAtMarker(s, e, z, n);
    assert [blocks[0]] + blocks[1..] == blocks;
  }

  /** The last block runs to the end of the text and is the last piece. */
  lemma LastPiece(s: string, e: nat, b: string, z: nat)
    requires IsPlainBlock(b) && z == |s| && e <= z && s[e..z] == b
    ensures SplitOnMarkers(s, e, e) == [b]
  {
    NoMarkerInBlock(s, e, z);
    SplitSkips(s, e, e, z);
    assert s[e..] == b;
  }

  /** The separator that follows a block starts with "Q" and is matched,
      since the block after it does not start with a blank. */
  lemma NextMarker(s: string, z: nat, number: string, b: string, more: string, n: nat)
    requires IsNumber(number) && IsPlainBlock(b)
    requires n == z + |Marker(number)| <= |s| && s[z..n] == Marker(number) && s[n..] == b + more
    ensures z < |s| && s[z] == 'Q' && MarkerEnd(s, z) == Some(n)
  {
    assert s[z] == s[z..n][0];
    assert s[n] == (b + more)[0] == b[0];
    MarkerMatch(s, z, number, n);
  }

  /** What the rest of a well laid out reply is made of. */
  lemma LaidOutTail(numbers: seq<string>, blocks: seq<string>)
    requires WellLaidOut(numbers, blocks) && numbers != []
    ensures IsNumber(numbers[0]) && IsPlainBlock(blocks[0])
    ensures WellLaidOut(numbers[1..], blocks[1..])
  {
    assert forall i :: 0 <= i < |numbers| - 1 ==> numbers[1..][i] == numbers[i + 1];
    assert forall i :: 0 <= i < |blocks| - 1 ==> blocks[1..][i] == blocks[i + 1];
  }

  /** Plain blocks are all kept by the blank filter. */
  lemma {:induction false} PlainBlocksKept(blocks: seq<string>)
    requires forall i :: 0 <= i < |blocks| ==> IsPlainBlock(blocks[i])
    ensures NonBlank(blocks) == blocks
  {
    if blocks != [] {
      PlainBlocksKept(blocks[1..]);
    }
  }

  /** The first separator and block of a non-empty reply. */
  lemma QuizHead(numbers: seq<string>, blocks: seq<string>, s: string, m: string, tail: string)
    requires |numbers| == |blocks| >= 1 && s == Quiz(numbers, blocks)
    requires m == Marker(numbers[0]) && tail == blocks[0] + Quiz(numbers[1..], blocks[1..])
    ensures s == m + tail
  {
  }

  /** Where a block b starts at e, the rest starts at z. */
  lemma BlockThenRest(s: string, e: nat, b: string, rest: string, z: nat)
    requires e <= |s| && s[e..] == b + rest && z == e + |b|
    ensures z <= |s| && s[e..z] == b && s[z..] == rest
  {
    assert s[e..z] == (b + rest)[..|b|];
    assert s[z..] == (b + rest)[|b|..];
  }

  /** Where a separator m starts at z, what follows starts at n. */
  lemma MarkerThenRest(s: string, z: nat, m: string, tail: string, n: nat)
    requires z <= |s| && s[z..] == m + tail && n == z + |m|
    ensures n <= |s| && s[z..n] == m && s[n..] == tail
  {
    assert s[z..n] == (m + tail)[..|m|];
    assert s[n..] == (m + tail)[|m|..];
  }

  /** The characters of a separator, by position. */
  lemma MarkerChars(number: string)
    ensures |Marker(number)| == 11 + |number|
    ensures forall k :: 0 <= k < 8 ==> LowerAscii(Marker(number)[k]) == "question"[k]
    ensures Marker(number)[8] == ' '
    ensures forall k :: 0 <= k < |number| ==> Marker(number)[9 + k] == number[k]
    ensures Marker(number)[9 + |number|] == ':' && Marker(number)[10 + |number|] == ' '
  {
  }

  /** A separator written at z, followed by a non-blank or the end, is
      matched there and the match ends right after it. */
  lemma MarkerMatch(s: string, z: nat, number: string, n: nat)
    requires IsNumber(number) && n == z + |Marker(number)| <= |s|
    requires s[z..n] == Marker(number)
    requires n == |s| || !IsRegexSpace(s[n])
    ensures MarkerEnd(s, z) == Some(n)
  {
    var m := Marker(number);
    MarkerChars(number);
    var h := z + 8;
    var c := h + 1 + |number|;
    assert forall k :: 0 <= k < |m| ==> s[z + k] == m[k] by {
      forall k | 0 <= k < |m| ensures s[z + k] == m[k] {
        assert s[z..n][k] == m[k];
      }
    }
    assert MatchesIgnoreCaseAt(s, z, "question");
    assert s[h] == ' ' && s[c] == ':' && s[c + 1] == ' ';
    assert forall k :: h + 1 <= k < c ==> IsDigit(s[k]) by {
      forall k | h + 1 <= k < c ensures IsDigit(s[k]) {
        assert s[z + (9 + (k - h - 1))] == number[k - h - 1];
      }
    }
    assert s[h + 1] == number[0];
    SkipRegexSpaceStopsAt(s, h, h + 1);
    SkipDigitsStopsAt(s, h + 1, c);
    SkipAfterColon(s, c, n);
  }

  /** Blanks after the colon: one space, then a non-blank or the end. */
  lemma SkipAfterColon(s: string, c: nat, n: nat)
    requires n == c + 2 <= |s| && s[c + 1] == ' '
    requires n == |s| || !IsRegexSpace(s[n])
    ensures SkipRegexSpace(s, c + 1) == n
  {
    if n < |s| {
      SkipRegexSpaceStopsAt(s, c + 1, n);
    } else {
      assert SkipRegexSpace(s, n) == n;
    }
  }

  /** No separator is matched anywhere in [i, z): the split goes on with
      the same piece. */
  lemma {:induction false} SplitSkips(s: string, start: nat, i: nat, z: nat)
    requires start <= i <= z <= |s|
    requires forall k :: i <= k < z ==> MarkerEnd(s, k).None?
    ensures SplitOnMarkers(s, start, i) == SplitOnMarkers(s, start, z)
    decreases z - i
  {
    if i < z {
      var n := i + 1;
      SplitSkips(s, start, n, z);
      SplitNoMatch(s, start, i, n);
    }
  }

  lemma SplitNoMatch(s: string, start: nat, i: nat, n: nat)
    requires start <= i < |s| && MarkerEnd(s, i).None? && n == i + 1
    ensures SplitOnMarkers(s, start, i) == SplitOnMarkers(s, start, n)
  {
  }

  /** A separator matched at z ends the current piece there. */
  lemma SplitAtMarker(s: string, start: nat, z: nat, n: nat)
    requires start <= z < |s| && MarkerEnd(s, z) == Some(n)
    ensures SplitOnMarkers(s, start, z) == [s[start..z]] + SplitOnMarkers(s, n, n)
  {
  }

  /** No separator starts inside a block that has none of its own, when the
      block is followed by the end of the text or by a "Q". */
  lemma NoMarkerInBlock(s: string, a: nat, z: nat)
    requires a <= z <= |s| && NoMarkerIn(s[a..z])
    requires z == |s| || s[z] == 'Q'
    ensures forall k :: a <= k < z ==> MarkerEnd(s, k).None?
  {
    forall k | a <= k < z ensures MarkerEnd(s, k).None? {
      MarkerBack(s, a, z, k - a);
    }
  }

  /** A separator found at a + k in s is found at k in s[a..z] when s[z] is
      a "Q" or z is the end: "question" does not overlap itself, and the
      part up to the colon can run only over blanks and digits. */
  lemma MarkerBack(s: string, a: nat, z: nat, k: nat)
    requires a + k < z <= |s| && (z == |s| || s[z] == 'Q')
    ensures MarkerEnd(s, a + k).Some? ==> MarkerEnd(s[a..z], k).Some?
  {
    var i := a + k;
    var p := s[a..z];
    WordInside(s, i, z);
    ColonInside(s, i, z);
    if MarkerEnd(s, i).Some? {
      var c: nat :| MarkerColonAt(s, i, c);
      SameMarker(s, a, z, k, c);
    }
  }

  /** "question" found at i lies before z. */
  lemma WordInside(s: string, i: nat, z: nat)
    requires i < z <= |s| && (z == |s| || s[z] == 'Q')
    ensures MatchesIgnoreCaseAt(s, i, "question") ==> i + 8 <= z
  {
    if z < |s| && z < i + 8 {
      assert LowerAscii(s[z]) == 'q';
      assert "question"[z - i] != 'q';
    }
  }

  /** The colon of a separator at i lies before z. */
  lemma ColonInside(s: string, i: nat, z: nat)
    requires i + 8 <= z <= |s| || i < z <= |s|
    requires z == |s| || s[z] == 'Q'
    ensures forall c: nat :: MarkerColonAt(s, i, c) && i + 8 <= z ==> c < z
  {
    assert z < |s| ==> !IsRegexSpace(s[z]) && !IsDigit(s[z]) && s[z] != ':';
  }

  /** The separator's characters, all before z, are in the slice too. */
  lemma SameMarker(s: string, a: nat, z: nat, k: nat, c: nat)
    requires a + k + 8 <= z <= |s| && a + k <= c < z
    requires MatchesIgnoreCaseAt(s, a + k, "question") && MarkerColonAt(s, a + k, c)
    ensures MarkerEnd(s[a..z], k).Some?
  {
    var p := s[a..z];
    assert forall j :: k <= j < k + 8 ==> p[j] == s[a + j];
    assert MatchesIgnoreCaseAt(p, k, "question");
    var h := a + k + 8;
    if c != h {
      var d: nat :| h <= d < c && BlanksThenDigits(s, h, d, c);
      forall m | k + 8 <= m < d - a ensures IsRegexSpace(p[m]) {
        assert p[m] == s[a + m];
      }
      forall m | d - a <= m < c - a ensures IsDigit(p[m]) {
        assert p[m] == s[a + m];
      }
      assert BlanksThenDigits(p, k + 8, d - a, c - a);
    }
    assert p[c - a] == s[c];
    assert MarkerColonAt(p, k, c - a);
  }
}
