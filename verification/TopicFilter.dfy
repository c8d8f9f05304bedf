/** Topic filters: the validity scan and the two-index matcher of lib/myqtt-reader.c,
    related to the level-by-level rules of sections 4.7.1 and 4.7.2 of MQTT 3.1.1. */
module TopicFilter {
  import opened Bytes

  /* ---------- Levels: the vocabulary of section 4.7 ---------- */

  predicate IsWild(b: byte) {
    b == PLUS || b == HASH
  }

  predicate HasWildcard(s: seq<byte>) {
    PLUS in s || HASH in s
  }

  /** Index of the first separator at or after `i`, or the end of the string. */
  function LevelEnd(s: CString, i: nat): (k: nat)
    requires i <= |s|
    ensures i <= k <= |s|
    ensures forall m :: i <= m < k ==> s[m] != SLASH
    ensures k < |s| ==> s[k] == SLASH
    decreases |s| - i
  {
    if i == |s| || s[i] == SLASH then i else LevelEnd(s, i + 1)
  }

  /** The '/'-separated levels of `s` from index `i` on; never empty. */
  function Levels(s: CString, i: nat): (ls: seq<CString>)
    requires i <= |s|
    ensures 0 < |ls|
    ensures ls[0] == s[i..LevelEnd(s, i)]
    decreases |s| - i
  {
    var k := LevelEnd(s, i);
    if k == |s| then [s[i..]] else [s[i..k]] + Levels(s, k + 1)
  }

  /** Section 4.7.1: a wildcard fills a whole level, and '#' only the last one. */
  predicate ValidLevels(ls: seq<CString>) {
    forall k :: 0 <= k < |ls| && HasWildcard(ls[k]) ==>
      ls[k] == [PLUS] || (ls[k] == [HASH] && k == |ls| - 1)
  }

  /** A filter that section 4.7 of MQTT 3.1.1 allows. */
  predicate IsFilter(f: CString) {
    f != [] && ValidLevels(Levels(f, 0))
  }

  predicate LevelAccepts(name: CString, filter: CString) {
    filter == [PLUS] || filter == name
  }

  /** The matching rule of section 4.7.1: level by level, '#' also covering its parent. */
  predicate StandardLevels(ns: seq<CString>, fs: seq<CString>)
    requires 0 < |fs|
  {
    if fs[|fs| - 1] == [HASH]
    then |fs| - 1 <= |ns| && forall k :: 0 <= k < |fs| - 1 ==> LevelAccepts(ns[k], fs[k])
    else |fs| == |ns| && forall k :: 0 <= k < |fs| ==> LevelAccepts(ns[k], fs[k])
  }

  /** Sections 4.7.1 and 4.7.2: a leading wildcard does not match a name starting with '$'. */
  predicate Standard(topic: CString, filter: CString) {
    && !(At(topic, 0) == DOLLAR && IsWild(At(filter, 0)))
    && StandardLevels(Levels(topic, 0), Levels(filter, 0))
  }

  /* ---------- The validity scan ---------- */

  /** What the scan's neighbour checks say about a filter, index by index. */
  predicate NeighboursOk(f: CString, i: nat)
    requires i < |f|
  {
    && (IsWild(f[i]) ==> (i == 0 || f[i - 1] == SLASH) && (i + 1 == |f| || f[i + 1] == SLASH))
    && (f[i] == SLASH ==> HASH !in f[..i])
  }

  predicate WellPlaced(f: CString, i: nat) {
    forall k :: i <= k < |f| ==> NeighboursOk(f, k)
  }

  lemma {:induction false} WellPlacedIsValid(f: CString, i: nat)
    requires i <= |f|
    requires i == 0 || f[i - 1] == SLASH
    requires HASH !in f[..i]
    ensures WellPlaced(f, i) <==> ValidLevels(Levels(f, i))
    decreases |f| - i
  {
    hide NeighboursOk, WellPlaced, ValidLevels, Levels;
    var k := LevelEnd(f, i);
    FirstLevel(f, i);
    if k == |f| {
      LastLevel(f, i);
      OneLevel(f[i..]);
      assert f[i..k] == f[i..] && Levels(f, i) == [f[i..k]];
    } else {
      ValidLevelsStep(f[i..k], Levels(f, k + 1));
      if HASH in f[..k + 1] {
        HashBeforeSeparator(f, i);
      } else {
        InnerLevel(f, i);
        WellPlacedIsValid(f, k + 1);
        SeparatorAfterCleanLevel(f, i);
      }
    }
  }

  lemma OneLevel(level: CString)
    ensures ValidLevels([level]) <==> (HasWildcard(level) ==> level == [PLUS] || level == [HASH])
  {
    assert [level][0] == level;
  }

  lemma ValidLevelsStep(level: CString, rest: seq<CString>)
    requires 0 < |rest|
    ensures ValidLevels([level] + rest) <==> (HasWildcard(level) ==> level == [PLUS]) && ValidLevels(rest)
  {
    var ls := [level] + rest;
    assert ls[0] == level;
    assert forall m :: 0 < m < |ls| ==> ls[m] == rest[m - 1];
    assert forall m :: 0 <= m < |rest| ==> rest[m] == ls[m + 1];
  }

  /** A '#' in a level that a separator ends breaks both readings of the rule. */
  lemma HashBeforeSeparator(f: CString, i: nat)
    requires i <= |f| && LevelEnd(f, i) < |f|
    requires HASH !in f[..i] && HASH in f[..LevelEnd(f, i) + 1]
    ensures !WellPlaced(f, i)
    ensures HASH in f[i..LevelEnd(f, i)]
  {
    var k := LevelEnd(f, i);
    var m :| 0 <= m < k + 1 && f[..k + 1][m] == HASH;
    assert f[m] == HASH && m < k;
    assert forall x :: 0 <= x < i ==> f[x] == f[..i][x];
    assert f[i..k][m - i] == HASH && f[..k][m] == HASH;
    assert !NeighboursOk(f, k);
  }

  lemma SeparatorAfterCleanLevel(f: CString, i: nat)
    requires i <= |f| && LevelEnd(f, i) < |f|
    requires HASH !in f[..LevelEnd(f, i) + 1]
    ensures var k := LevelEnd(f, i);
            WellPlaced(f, i) <==> (forall m :: i <= m < k ==> NeighboursOk(f, m)) && WellPlaced(f, k + 1)
  {
    var k := LevelEnd(f, i);
    assert f[..k] == f[..k + 1][..k];
    assert NeighboursOk(f, k);
  }

  /** The last level is either free of wildcards or a single wildcard. */
  lemma LastLevel(f: CString, i: nat)
    requires i <= |f| && LevelEnd(f, i) == |f|
    requires i == 0 || f[i - 1] == SLASH
    ensures WellPlaced(f, i) <==> (HasWildcard(f[i..]) ==> f[i..] == [PLUS] || f[i..] == [HASH])
  {
    if HasWildcard(f[i..]) {
      var m :| 0 <= m < |f| - i && IsWild(f[i..][m]);
      assert f[i + m] == f[i..][m];
      if WellPlaced(f, i) {
        assert NeighboursOk(f, i + m);
      }
      if f[i..] == [PLUS] || f[i..] == [HASH] {
        assert |f[i..]| == 1;
      }
    } else {
      forall m | i <= m < |f| ensures NeighboursOk(f, m) {
        assert f[i..][m - i] == f[m];
      }
    }
  }

  /** A level before a separator and without '#' is free of '+' or a single '+'. */
  lemma InnerLevel(f: CString, i: nat)
    requires i <= |f| && LevelEnd(f, i) < |f|
    requires i == 0 || f[i - 1] == SLASH
    requires HASH !in f[..LevelEnd(f, i) + 1]
    ensures var k := LevelEnd(f, i);
            (forall m :: i <= m < k ==> NeighboursOk(f, m)) <==> (HasWildcard(f[i..k]) ==> f[i..k] == [PLUS])
  {
    var k := LevelEnd(f, i);
    assert HASH !in f[i..k] by {
      assert forall m :: i <= m < k ==> f[m] == f[..k + 1][m];
    }
    if HasWildcard(f[i..k]) {
      var m :| 0 <= m < k - i && f[i..k][m] == PLUS;
      assert f[i + m] == PLUS;
      if forall m :: i <= m < k ==> NeighboursOk(f, m) {
        assert NeighboursOk(f, i + m);
      }
      if f[i..k] == [PLUS] {
        assert k == i + 1;
      }
    } else {
      forall m | i <= m < k ensures NeighboursOk(f, m) {
        assert f[i..k][m - i] == f[m];
      }
    }
  }

  /** Scans a filter once with neighbour checks; the reply is "wrong". */
  method IsWrongTopic(f: CString) returns (wrong: bool)
    ensures wrong <==> !IsFilter(f)
  {
    if f == [] {
      return true;
    }
    WellPlacedIsValid(f, 0);
    var foundHash := false;
    var pos := 0;
    while At(f, pos) != 0
      invariant pos <= |f|
      invariant foundHash <==> HASH in f[..pos]
      invariant forall k :: 0 <= k < pos ==> NeighboursOk(f, k)
      decreases |f| - pos
    {
      if f[pos] == HASH {
        foundHash := true;
      }
      assert f[..pos + 1] == f[..pos] + [f[pos]];
      if f[pos] == SLASH && foundHash {
        assert !NeighboursOk(f, pos);
        return true;
      }
      if f[pos] == PLUS || f[pos] == HASH {
        if At(f, pos + 1) != 0 && At(f, pos + 1) != SLASH {
          assert !NeighboursOk(f, pos);
          return true;
        }
        if pos > 0 {
          if f[pos - 1] != SLASH {
            assert !NeighboursOk(f, pos);
            return true;
          }
        }
      }
      assert NeighboursOk(f, pos);
      pos := pos + 1;
    }
    return false;
  }

  /* ---------- The two-index matcher ---------- */

  /** The verdict once one of the two strings has been used up. */
  predicate Exhausted(t: CString, i: nat, f: CString, j: nat) {
    || (At(t, i) == 0 && At(f, j) == PLUS && At(f, j + 1) == 0)
    || (At(t, i) == 0 && At(f, j) == HASH && At(f, j + 1) == 0)
    || (At(t, i) == 0 && At(f, j) == SLASH && At(f, j + 1) == HASH && At(f, j + 2) == 0)
    || At(t, i) == At(f, j)
  }

  /** The matcher's outcome from a pair of positions at which it looks for a wildcard. */
  predicate MatchFrom(t: CString, i: nat, f: CString, j: nat)
    requires i <= |t| && j <= |f|
    decreases |f| - j, 1
  {
    if i == |t| || j == |f| then Exhausted(t, i, f, j)
    else if f[j] == SLASH then t[i] == SLASH && MatchFrom(t, i + 1, f, j + 1)
    else if f[j] == PLUS && t[i] != DOLLAR then
      MatchFrom(t, AfterSeparator(t, LevelEnd(t, i)), f, AfterSeparator(f, j + 1))
    else (f[j] == HASH && t[i] != DOLLAR) || LiteralFrom(t, i, f, j)
  }

  /** The position after the byte at `i`, unless that is the terminator. */
  function AfterSeparator(s: CString, i: nat): (k: nat)
    requires i <= |s|
    ensures i <= k <= |s|
  {
    if i == |s| then i else i + 1
  }

  /** The matcher's outcome from inside a stretch it compares byte by byte. */
  predicate LiteralFrom(t: CString, i: nat, f: CString, j: nat)
    requires i <= |t| && j <= |f|
    decreases |f| - j, 0
  {
    if i == |t| || j == |f| then Exhausted(t, i, f, j)
    else if t[i] != f[j] then false
    else if t[i] == SLASH then MatchFrom(t, i + 1, f, j + 1)
    else LiteralFrom(t, i + 1, f, j + 1)
  }

  /** The outcome of the matcher for every pair of strings. */
  predicate Matches(t: CString, f: CString) {
    f != [] && ((f == [HASH] && At(t, 0) != DOLLAR) || t == f || MatchFrom(t, 0, f, 0))
  }

  method FilterMatch(t: CString, f: CString) returns (matches: bool)
    ensures matches <==> Matches(t, f)
  {
    if f == [] {
      return false;
    }
    if f == [HASH] && At(t, 0) != DOLLAR {
      return true;
    }
    if t == f {
      return true;
    }
    var i, j := 0, 0;
    while At(t, i) != 0 && At(f, j) != 0
      invariant i <= |t| && j <= |f|
      invariant MatchFrom(t, i, f, j) <==> MatchFrom(t, 0, f, 0)
      decreases |f| - j
    {
      if f[j] == SLASH {
        if t[i] != f[j] {
          return false;
        }
        i, j := i + 1, j + 1;
      } else if f[j] == PLUS && t[i] != DOLLAR {
        ghost var start := i;
        while At(t, i) != 0 && At(t, i) != SLASH
          invariant i <= |t| && LevelEnd(t, i) == LevelEnd(t, start)
          decreases |t| - i
        {
          i := i + 1;
        }
        if At(t, i) != 0 {
          i := i + 1;
        }
        j := j + 1;
        if At(f, j) != 0 {
          j := j + 1;
        }
      } else if f[j] == HASH && t[i] != DOLLAR {
        return true;
      } else {
        ghost var outcome, start := MatchFrom(t, i, f, j), j;
        while At(t, i) != 0 && At(f, j) != 0
          invariant i <= |t| && start <= j <= |f|
          invariant j == start ==> At(t, i) != 0 && At(f, j) != 0
          invariant outcome <==> LiteralFrom(t, i, f, j)
          decreases |f| - j
        {
          if t[i] != f[j] {
            return false;
          }
          i, j := i + 1, j + 1;
          if t[i - 1] == SLASH {
            break;
          }
        }
      }
    }
    return Exhausted(t, i, f, j);
  }

  /* ---------- What the matcher decides, level by level ---------- */

  predicate StartsWithDollar(level: CString) {
    At(level, 0) == DOLLAR
  }

  /** Filter tails that the matcher accepts after a '+' has met the name's last level. */
  predicate AcceptedTail(fs: seq<CString>) {
    fs == [[]] || fs == [[PLUS]] || fs == [[HASH]] || fs == [[], [HASH]]
  }

  /** The matcher's rule once the strings are cut into levels. */
  ghost predicate LevelRule(ns: seq<CString>, fs: seq<CString>)
    requires 0 < |ns| && 0 < |fs|
    decreases |fs|
  {
    if fs[0] == [HASH] then !StartsWithDollar(ns[0])
    else if fs[0] == [PLUS] then
      && !StartsWithDollar(ns[0])
      && if |fs| == 1 then |ns| == 1 || ns[1..] == [[]]
         else if |ns| == 1 then ns[0] != [] && AcceptedTail(fs[1..])
         else LevelRule(ns[1..], fs[1..])
    else
      && ns[0] == fs[0]
      && SameLevelRest(ns, fs)
  }

  /** What must follow a level that both strings spell the same way. */
  ghost predicate SameLevelRest(ns: seq<CString>, fs: seq<CString>)
    requires 0 < |ns| && 0 < |fs|
    decreases |fs|, 0
  {
    if |ns| == 1 then |fs| == 1 || fs[1..] == [[HASH]]
    else 1 < |fs| && LevelRule(ns[1..], fs[1..])
  }

  lemma FirstLevel(s: CString, i: nat)
    requires i <= |s|
    ensures var k := LevelEnd(s, i);
            Levels(s, i) == [s[i..k]] + (if k == |s| then [] else Levels(s, k + 1))
  {
  }

  lemma SeparatorAfterHash(f: CString, k: nat)
    requires k < |f| && f[k] == SLASH && HASH in f[..k]
    ensures !NeighboursOk(f, k)
  {
  }

  /** In a valid filter a wildcard at the start of a level is the whole level. */
  lemma WildcardLevel(f: CString, j: nat)
    requires j < |f| && WellPlaced(f, 0) && (j == 0 || f[j - 1] == SLASH)
    ensures f[j] == PLUS <==> Levels(f, j)[0] == [PLUS]
    ensures f[j] == HASH <==> Levels(f, j)[0] == [HASH]
    ensures f[j] == PLUS ==> LevelEnd(f, j) == j + 1
    ensures f[j] == HASH ==> j + 1 == |f|
  {
    assert NeighboursOk(f, j);
    if f[j] == HASH && j + 1 < |f| {
      assert f[..j + 1][j] == HASH;
      SeparatorAfterHash(f, j + 1);
    }
    if IsWild(f[j]) {
      assert LevelEnd(f, j) == j + 1;
    } else {
      assert j < LevelEnd(f, j) ==> Levels(f, j)[0][0] == f[j];
    }
  }

  /** A level that opens without a wildcard holds none. */
  lemma LiteralLevel(f: CString, j: nat)
    requires j <= |f| && WellPlaced(f, 0) && (j == 0 || f[j - 1] == SLASH)
    requires j == |f| || !IsWild(f[j])
    ensures forall m :: j <= m < LevelEnd(f, j) ==> !IsWild(f[m])
  {
    forall m | j <= m < LevelEnd(f, j)
      ensures !IsWild(f[m])
    {
      assert NeighboursOk(f, m);
    }
  }

  lemma {:induction false} MatchFromIsLevelRule(t: CString, i: nat, f: CString, j: nat)
    requires i <= |t| && j <= |f| && WellPlaced(f, 0) && (j == 0 || f[j - 1] == SLASH)
    ensures MatchFrom(t, i, f, j) <==> LevelRule(Levels(t, i), Levels(f, j))
    decreases |f| - j, 1
  {
    if j < |f| {
      WildcardLevel(f, j);
    }
    FirstLevel(t, i);
    FirstLevel(f, j);
    if j < |f| && f[j] == PLUS {
      PlusIsLevelRule(t, i, f, j);
    } else if j == |f| || f[j] != HASH {
      LiteralLevel(f, j);
      LiteralIsLevelRule(t, i, f, j);
    }
  }

  lemma PlusRule(ns: seq<CString>, fs: seq<CString>)
    requires 0 < |ns| && 0 < |fs| && fs[0] == [PLUS]
    ensures LevelRule(ns, fs) <==>
              && !StartsWithDollar(ns[0])
              && if |fs| == 1 then |ns| == 1 || ns[1..] == [[]]
                 else if |ns| == 1 then ns[0] != [] && AcceptedTail(fs[1..])
                 else LevelRule(ns[1..], fs[1..])
  {
  }

  lemma {:induction false} PlusIsLevelRule(t: CString, i: nat, f: CString, j: nat)
    requires i <= |t| && j < |f| && WellPlaced(f, 0) && (j == 0 || f[j - 1] == SLASH)
    requires f[j] == PLUS
    ensures MatchFrom(t, i, f, j) <==> LevelRule(Levels(t, i), Levels(f, j))
    decreases |f| - j, 0
  {
    hide WellPlaced, MatchFrom, LevelRule, Levels;
    WildcardLevel(f, j);
    if i < |t| && t[i] != DOLLAR && LevelEnd(t, i) < |t| && j + 1 < |f| {
      PlusStep(t, i, f, j);
      MatchFromIsLevelRule(t, LevelEnd(t, i) + 1, f, j + 2);
    } else {
      PlusAtEnd(t, i, f, j);
    }
  }

  /** Both strings have a level behind the one that a `+` stands for. */
  lemma PlusStep(t: CString, i: nat, f: CString, j: nat)
    requires i < |t| && t[i] != DOLLAR && LevelEnd(t, i) < |t| && j + 1 < |f|
    requires f[j] == PLUS && LevelEnd(f, j) == j + 1
    ensures f[j + 1] == SLASH
    ensures MatchFrom(t, i, f, j) <==> MatchFrom(t, LevelEnd(t, i) + 1, f, j + 2)
    ensures LevelRule(Levels(t, i), Levels(f, j)) <==> LevelRule(Levels(t, LevelEnd(t, i) + 1), Levels(f, j + 2))
  {
    hide Levels, LevelRule, AcceptedTail;
    FirstLevel(t, i);
    FirstLevel(f, j);
    PlusRule(Levels(t, i), Levels(f, j));
  }

  lemma PlusAtEnd(t: CString, i: nat, f: CString, j: nat)
    requires i <= |t| && j < |f| && WellPlaced(f, 0) && (j == 0 || f[j - 1] == SLASH)
    requires f[j] == PLUS && LevelEnd(f, j) == j + 1
    requires !(i < |t| && t[i] != DOLLAR && LevelEnd(t, i) < |t| && j + 1 < |f|)
    ensures MatchFrom(t, i, f, j) <==> LevelRule(Levels(t, i), Levels(f, j))
  {
    hide WellPlaced, LevelRule, Levels, AcceptedTail;
    FirstLevel(t, i);
    FirstLevel(f, j);
    PlusRule(Levels(t, i), Levels(f, j));
    var k := LevelEnd(t, i);
    if i < |t| && t[i] != DOLLAR {
      if k < |t| {
        FirstLevel(t, k + 1);
      } else if j + 1 < |f| {
        TailAfterPlus(f, j + 2);
      }
    } else if j + 1 < |f| {
      assert At(f, j + 1) == SLASH;
    }
  }

  /** The checks on a used-up name, in terms of the filter's remaining levels. */
  lemma TailAfterPlus(f: CString, j: nat)
    requires 0 < j <= |f| && WellPlaced(f, 0) && f[j - 1] == SLASH
    ensures Exhausted([], 0, f, j) <==> AcceptedTail(Levels(f, j))
  {
    FirstLevel(f, j);
    var k := LevelEnd(f, j);
    if j < |f| {
      WildcardLevel(f, j);
      if k < |f| {
        SecondLevel(f, j);
      }
    }
  }

  lemma SecondLevel(f: CString, j: nat)
    requires j <= |f| && WellPlaced(f, 0) && LevelEnd(f, j) < |f|
    ensures var k, fs := LevelEnd(f, j), Levels(f, j);
            && fs[1..] == Levels(f, k + 1)
            && (fs[1..] == [[HASH]] <==> k + 2 == |f| && f[k + 1] == HASH)
  {
    var k := LevelEnd(f, j);
    FirstLevel(f, j);
    FirstLevel(f, k + 1);
    if k + 1 < |f| {
      WildcardLevel(f, k + 1);
      if f[k + 1] == HASH {
        assert f[k + 1..] == [HASH];
      }
    }
  }

  lemma {:induction false} LiteralIsLevelRule(t: CString, i: nat, f: CString, j: nat)
    requires i <= |t| && j <= |f| && WellPlaced(f, 0)
    requires forall m :: j <= m < LevelEnd(f, j) ==> !IsWild(f[m])
    ensures LiteralFrom(t, i, f, j) <==> LiteralRule(Levels(t, i), Levels(f, j))
    decreases |f| - j, 0
  {
    hide LevelRule, SameLevelRest, NeighboursOk, WellPlaced, Levels, Exhausted;
    if i == |t| || j == |f| {
      LiteralExhausted(t, i, f, j);
    } else if t[i] != f[j] {
      DifferentLevels(t, i, f, j);
    } else if t[i] == SLASH {
      MatchFromIsLevelRule(t, i + 1, f, j + 1);
      BothAtSeparator(t, i, f, j);
    } else {
      LiteralIsLevelRule(t, i + 1, f, j + 1);
      BothAtByte(t, i, f, j);
    }
  }

  ghost predicate LiteralRule(ns: seq<CString>, fs: seq<CString>)
    requires 0 < |ns| && 0 < |fs|
  {
    ns[0] == fs[0] && SameLevelRest(ns, fs)
  }

  lemma BothAtSeparator(t: CString, i: nat, f: CString, j: nat)
    requires i < |t| && j < |f| && t[i] == f[j] == SLASH
    ensures LiteralRule(Levels(t, i), Levels(f, j)) <==> LevelRule(Levels(t, i + 1), Levels(f, j + 1))
  {
    FirstLevel(t, i);
    FirstLevel(f, j);
    assert Levels(t, i)[1..] == Levels(t, i + 1) && Levels(f, j)[1..] == Levels(f, j + 1);
  }

  lemma BothAtByte(t: CString, i: nat, f: CString, j: nat)
    requires i < |t| && j < |f| && t[i] == f[j] != SLASH
    ensures LiteralRule(Levels(t, i), Levels(f, j)) <==> LiteralRule(Levels(t, i + 1), Levels(f, j + 1))
  {
    DropFirstByte(t, i);
    DropFirstByte(f, j);
    SameTails(Levels(t, i), Levels(f, j), Levels(t, i + 1), Levels(f, j + 1));
    assert Levels(t, i + 1)[0] == Levels(t, i)[0][1..] && Levels(f, j + 1)[0] == Levels(f, j)[0][1..];
  }

  lemma SameTails(ns: seq<CString>, fs: seq<CString>, ns': seq<CString>, fs': seq<CString>)
    requires 0 < |ns| && 0 < |fs| && 0 < |ns'| && 0 < |fs'|
    requires ns[1..] == ns'[1..] && fs[1..] == fs'[1..]
    ensures SameLevelRest(ns, fs) <==> SameLevelRest(ns', fs')
  {
    assert |ns| == |ns[1..]| + 1 && |fs| == |fs[1..]| + 1;
    assert |ns'| == |ns'[1..]| + 1 && |fs'| == |fs'[1..]| + 1;
  }

  lemma DifferentLevels(t: CString, i: nat, f: CString, j: nat)
    requires i < |t| && j < |f| && t[i] != f[j]
    ensures Levels(t, i)[0] != Levels(f, j)[0]
  {
    var a, b := Levels(t, i)[0], Levels(f, j)[0];
    if a != [] && b != [] {
      assert a[0] == t[i] && b[0] == f[j];
    }
  }

  lemma DropFirstByte(s: CString, i: nat)
    requires i < |s| && s[i] != SLASH
    ensures Levels(s, i)[0] == [s[i]] + Levels(s, i + 1)[0]
    ensures Levels(s, i)[1..] == Levels(s, i + 1)[1..]
  {
    FirstLevel(s, i);
    FirstLevel(s, i + 1);
  }

  lemma LiteralExhausted(t: CString, i: nat, f: CString, j: nat)
    requires i <= |t| && j <= |f| && (i == |t| || j == |f|) && WellPlaced(f, 0)
    requires forall m :: j <= m < LevelEnd(f, j) ==> !IsWild(f[m])
    ensures Exhausted(t, i, f, j) <==> LiteralRule(Levels(t, i), Levels(f, j))
  {
    FirstLevel(t, i);
    FirstLevel(f, j);
    if j < |f| && f[j] == SLASH {
      SecondLevel(f, j);
    }
  }

  /* ---------- Exactly when the matcher follows the standard ---------- */

  /** A level opening with '$' facing a wildcard; the standard only minds this at the first level. */
  predicate DollarUnderWildcard(ns: seq<CString>, fs: seq<CString>) {
    exists k :: 0 <= k < |ns| && k < |fs| && StartsWithDollar(ns[k]) && (fs[k] == [PLUS] || fs[k] == [HASH])
  }

  /** An empty last name level facing a filter that ends in "+/#". */
  predicate EmptyUnderPlusHash(ns: seq<CString>, fs: seq<CString>) {
    && 0 < |ns| && |fs| == |ns| + 1 && ns[|ns| - 1] == []
    && fs[|ns| - 1] == [PLUS] && fs[|ns|] == [HASH]
  }

  predicate AcceptsPrefix(ns: seq<CString>, fs: seq<CString>, count: nat) {
    && count <= |ns| && count <= |fs|
    && forall k :: 0 <= k < count ==> LevelAccepts(ns[k], fs[k])
  }

  /** A filter ending in '+' facing a name with one more level, an empty one. */
  predicate PlusThenEmptyLevel(ns: seq<CString>, fs: seq<CString>) {
    && 0 < |fs| && |ns| == |fs| + 1 && ns[|fs|] == [] && fs[|fs| - 1] == [PLUS]
    && AcceptsPrefix(ns, fs, |fs|)
  }

  /** A '+' meeting the name's non-empty last level while the filter goes on with "/", "/+" or "//#". */
  predicate PlusBeforeTail(ns: seq<CString>, fs: seq<CString>) {
    && 0 < |ns| < |fs| && fs[|ns| - 1] == [PLUS] && ns[|ns| - 1] != []
    && AcceptsPrefix(ns, fs, |ns|)
    && var tail := fs[|ns|..];
       tail == [[]] || tail == [[PLUS]] || tail == [[], [HASH]]
  }

  /** Matches that the matcher misses. */
  predicate Missed(ns: seq<CString>, fs: seq<CString>) {
    DollarUnderWildcard(ns, fs) || EmptyUnderPlusHash(ns, fs)
  }

  /** Non-matches that the matcher accepts. */
  predicate Extra(ns: seq<CString>, fs: seq<CString>) {
    !DollarUnderWildcard(ns, fs) && (PlusThenEmptyLevel(ns, fs) || PlusBeforeTail(ns, fs))
  }

  predicate Verdict(ns: seq<CString>, fs: seq<CString>)
    requires 0 < |fs|
  {
    (StandardLevels(ns, fs) && !Missed(ns, fs)) || Extra(ns, fs)
  }

  lemma {:induction false} LevelRuleIsVerdict(ns: seq<CString>, fs: seq<CString>)
    requires 0 < |ns| && 0 < |fs| && ValidLevels(fs)
    ensures LevelRule(ns, fs) <==> Verdict(ns, fs)
    decreases |fs|
  {
    if |ns| == 1 || |fs| == 1 {
      ShortVerdict(ns, fs);
    } else {
      ValidTail(fs);
      LevelRuleIsVerdict(ns[1..], fs[1..]);
      VerdictStep(ns, fs);
    }
  }

  lemma ValidTail(fs: seq<CString>)
    requires 1 < |fs| && ValidLevels(fs)
    ensures ValidLevels(fs[1..]) && fs[0] != [HASH]
  {
    assert forall k :: 0 <= k < |fs| - 1 ==> fs[1..][k] == fs[k + 1];
    assert fs[0] == [HASH] ==> HasWildcard(fs[0]);
  }

  lemma ShortVerdict(ns: seq<CString>, fs: seq<CString>)
    requires 0 < |ns| && 0 < |fs| && ValidLevels(fs) && (|ns| == 1 || |fs| == 1)
    ensures LevelRule(ns, fs) <==> Verdict(ns, fs)
  {
    assert 1 < |fs| ==> fs[1..][0] == fs[1];
    assert 1 < |ns| ==> ns[1..][0] == ns[1];
    assert DollarUnderWildcard(ns, fs) <==>
      StartsWithDollar(ns[0]) && (fs[0] == [PLUS] || fs[0] == [HASH]);
    if 1 < |fs| {
      ValidTail(fs);
    }
  }

  /** The closed form peels off the first level just as the recursive rule does. */
  lemma VerdictStep(ns: seq<CString>, fs: seq<CString>)
    requires 1 < |ns| && 1 < |fs| && fs[0] != [HASH]
    ensures Verdict(ns, fs) <==>
      LevelAccepts(ns[0], fs[0]) && !(StartsWithDollar(ns[0]) && fs[0] == [PLUS]) && Verdict(ns[1..], fs[1..])
  {
    var ns', fs' := ns[1..], fs[1..];
    assert forall k :: 0 <= k < |ns'| ==> ns'[k] == ns[k + 1];
    assert forall k :: 0 <= k < |fs'| ==> fs'[k] == fs[k + 1];
    assert forall k :: 0 < k < |ns| ==> ns[k] == ns'[k - 1];
    assert forall k :: 0 < k < |fs| ==> fs[k] == fs'[k - 1];
    PrefixStep(ns, fs);
    assert |ns| < |fs| ==> fs[|ns|..] == fs'[|ns'|..];
    DollarStep(ns, fs);
  }

  lemma DollarStep(ns: seq<CString>, fs: seq<CString>)
    requires 1 < |ns| && 1 < |fs| && fs[0] != [HASH]
    ensures DollarUnderWildcard(ns, fs) <==>
      (StartsWithDollar(ns[0]) && fs[0] == [PLUS]) || DollarUnderWildcard(ns[1..], fs[1..])
  {
    var ns', fs' := ns[1..], fs[1..];
    if DollarUnderWildcard(ns', fs') {
      var k :| 0 <= k < |ns'| && k < |fs'| && StartsWithDollar(ns'[k]) && (fs'[k] == [PLUS] || fs'[k] == [HASH]);
      assert ns[k + 1] == ns'[k] && fs[k + 1] == fs'[k];
    }
    if DollarUnderWildcard(ns, fs) {
      var k :| 0 <= k < |ns| && k < |fs| && StartsWithDollar(ns[k]) && (fs[k] == [PLUS] || fs[k] == [HASH]);
      if 0 < k {
        assert ns[k] == ns'[k - 1] && fs[k] == fs'[k - 1];
      }
    }
  }

  lemma PrefixStep(ns: seq<CString>, fs: seq<CString>)
    requires 1 < |ns| && 1 < |fs|
    ensures forall n: nat {:trigger AcceptsPrefix(ns, fs, n + 1)} ::
      AcceptsPrefix(ns, fs, n + 1) <==> LevelAccepts(ns[0], fs[0]) && AcceptsPrefix(ns[1..], fs[1..], n)
    ensures StandardLevels(ns, fs) <==> LevelAccepts(ns[0], fs[0]) && StandardLevels(ns[1..], fs[1..])
  {
    var ns', fs' := ns[1..], fs[1..];
    assert forall k :: 0 <= k < |ns'| ==> ns'[k] == ns[k + 1];
    assert forall k :: 0 <= k < |fs'| ==> fs'[k] == fs[k + 1];
    assert forall k :: 0 < k < |ns| ==> ns[k] == ns'[k - 1];
    assert forall k :: 0 < k < |fs| ==> fs[k] == fs'[k - 1];
  }

  lemma MatchesIsLevelRule(t: CString, f: CString)
    requires IsFilter(f)
    ensures Matches(t, f) <==> LevelRule(Levels(t, 0), Levels(f, 0))
  {
    WellPlacedIsValid(f, 0);
    MatchFromIsLevelRule(t, 0, f, 0);
    if f == [HASH] {
      WildcardLevel(f, 0);
    } else if t == f {
      EqualStringsMatch(Levels(t, 0));
    }
  }

  lemma {:induction false} EqualStringsMatch(ls: seq<CString>)
    requires 0 < |ls| && ValidLevels(ls)
    ensures LevelRule(ls, ls)
    decreases |ls|
  {
    if 1 < |ls| {
      ValidTail(ls);
      EqualStringsMatch(ls[1..]);
    }
  }

  /** The matcher's exact verdict on every name and every accepted filter. */
  lemma MatcherVerdict(t: CString, f: CString)
    requires IsFilter(f)
    ensures var ns, fs := Levels(t, 0), Levels(f, 0);
            Matches(t, f) <==> (Standard(t, f) && !Missed(ns, fs)) || Extra(ns, fs)
  {
    var ns, fs := Levels(t, 0), Levels(f, 0);
    MatchesIsLevelRule(t, f);
    LevelRuleIsVerdict(ns, fs);
    WellPlacedIsValid(f, 0);
    WildcardLevel(f, 0);
    if At(t, 0) == DOLLAR && IsWild(At(f, 0)) {
      assert StartsWithDollar(ns[0]);
      assert DollarUnderWildcard(ns, fs);
    }
  }

  /** The matcher and the standard disagree exactly on the two families of misses and extras. */
  lemma AgreesWithStandardExactly(t: CString, f: CString)
    requires IsFilter(f)
    ensures var ns, fs := Levels(t, 0), Levels(f, 0);
            (Matches(t, f) <==> Standard(t, f)) <==> !Extra(ns, fs) && !(Standard(t, f) && Missed(ns, fs))
  {
    var ns, fs := Levels(t, 0), Levels(f, 0);
    MatcherVerdict(t, f);
    if Extra(ns, fs) && PlusBeforeTail(ns, fs) {
      TailLengths(ns, fs);
    }
  }

  lemma TailLengths(ns: seq<CString>, fs: seq<CString>)
    requires PlusBeforeTail(ns, fs)
    ensures !StandardLevels(ns, fs)
  {
    var tail := fs[|ns|..];
    assert |fs| == |ns| + |tail| && fs[|fs| - 1] == tail[|tail| - 1];
  }

  /** Names whose last level is not empty and whose later levels do not open with '$'. */
  predicate Ordinary(t: CString) {
    var ns := Levels(t, 0);
    ns[|ns| - 1] != [] && forall k :: 0 < k < |ns| ==> !StartsWithDollar(ns[k])
  }

  /** On ordinary names the only deviation is a '+' meeting the last level before one of three tails. */
  lemma OrdinaryNames(t: CString, f: CString)
    requires IsFilter(f) && Ordinary(t)
    ensures var ns, fs := Levels(t, 0), Levels(f, 0);
            Matches(t, f) <==>
              Standard(t, f) || (PlusBeforeTail(ns, fs) && !(At(t, 0) == DOLLAR && IsWild(At(f, 0))))
  {
    var ns, fs := Levels(t, 0), Levels(f, 0);
    MatcherVerdict(t, f);
    WellPlacedIsValid(f, 0);
    WildcardLevel(f, 0);
    assert DollarUnderWildcard(ns, fs) <==> At(t, 0) == DOLLAR && IsWild(At(f, 0)) by {
      assert StartsWithDollar(ns[0]) <==> At(t, 0) == DOLLAR;
    }
  }

  /** Without wildcards the matcher is plain equality. */
  lemma LiteralFilter(t: CString, f: CString)
    requires f != [] && !HasWildcard(f)
    ensures IsFilter(f)
    ensures Matches(t, f) <==> t == f
  {
    forall k | 0 <= k < |f|
      ensures f[..k] + [f[k]] == f[..k + 1] && NeighboursOk(f, k)
    {
    }
    WellPlacedIsValid(f, 0);
    LiteralMatchFrom(t, 0, f, 0);
  }

  lemma {:induction false} LiteralMatchFrom(t: CString, i: nat, f: CString, j: nat)
    requires i <= |t| && j <= |f| && !HasWildcard(f)
    ensures MatchFrom(t, i, f, j) <==> t[i..] == f[j..]
    ensures LiteralFrom(t, i, f, j) <==> t[i..] == f[j..]
    decreases |f| - j
  {
    if i < |t| && j < |f| {
      assert t[i..] == [t[i]] + t[i + 1..] && f[j..] == [f[j]] + f[j + 1..];
      LiteralMatchFrom(t, i + 1, f, j + 1);
    } else {
      assert j < |f| ==> !IsWild(f[j]);
      assert j + 1 < |f| ==> !IsWild(f[j + 1]);
    }
  }

  /** Accepted against the standard: "a" by "+/+" and "a/" by "+". */
  lemma ExtraExamples()
    ensures var a: byte := 97;
            && Matches([a], [PLUS, SLASH, PLUS]) && !Standard([a], [PLUS, SLASH, PLUS])
            && Matches([a, SLASH], [PLUS]) && !Standard([a, SLASH], [PLUS])
  {
    var a: byte := 97;
    var plusPlus, aSlash := [PLUS, SLASH, PLUS], [a, SLASH];
    LastCut([a], 0);
    Cut(plusPlus, 0, 1);
    LastCut(plusPlus, 2);
    LastCut([PLUS], 0);
    Cut(aSlash, 0, 1);
    LastCut(aSlash, 2);
  }

  /** Missed against the standard: "a/$b" by "a/+" and "a/" by "a/+/#". */
  lemma MissedExamples()
    ensures var a: byte, b: byte := 97, 98;
            && !Matches([a, SLASH, DOLLAR, b], [a, SLASH, PLUS]) && Standard([a, SLASH, DOLLAR, b], [a, SLASH, PLUS])
            && !Matches([a, SLASH], [a, SLASH, PLUS, SLASH, HASH]) && Standard([a, SLASH], [a, SLASH, PLUS, SLASH, HASH])
  {
    DollarExample();
    EmptyLevelExample();
  }

  lemma DollarExample()
    ensures var a: byte, b: byte := 97, 98;
            !Matches([a, SLASH, DOLLAR, b], [a, SLASH, PLUS]) && Standard([a, SLASH, DOLLAR, b], [a, SLASH, PLUS])
  {
    var a: byte, b: byte := 97, 98;
    var dollar, aPlus := [a, SLASH, DOLLAR, b], [a, SLASH, PLUS];
    Cut(dollar, 0, 1);
    LastCut(dollar, 2);
    Cut(aPlus, 0, 1);
    LastCut(aPlus, 2);
    assert StartsWithDollar(Levels(dollar, 0)[1]);
    assert DollarUnderWildcard(Levels(dollar, 0), Levels(aPlus, 0));
    MatcherVerdict(dollar, aPlus);
  }

  lemma EmptyLevelExample()
    ensures var a: byte := 97;
            !Matches([a, SLASH], [a, SLASH, PLUS, SLASH, HASH]) && Standard([a, SLASH], [a, SLASH, PLUS, SLASH, HASH])
  {
    var a: byte := 97;
    hide Matches, LevelEnd;
    var aSlash, aPlusHash := [a, SLASH], [a, SLASH, PLUS, SLASH, HASH];
    Cut(aSlash, 0, 1);
    LastCut(aSlash, 2);
    Cut(aPlusHash, 0, 1);
    Cut(aPlusHash, 2, 3);
    LastCut(aPlusHash, 4);
    assert Levels(aPlusHash, 0)[2..] == [[HASH]];
    MatcherVerdict(aSlash, aPlusHash);
  }

  lemma Cut(s: CString, i: nat, k: nat)
    requires i <= k < |s| && s[k] == SLASH && forall m :: i <= m < k ==> s[m] != SLASH
    ensures Levels(s, i) == [s[i..k]] + Levels(s, k + 1)
  {
    assert LevelEnd(s, i) == k;
  }

  lemma LastCut(s: CString, i: nat)
    requires i <= |s| && forall m :: i <= m < |s| ==> s[m] != SLASH
    ensures Levels(s, i) == [s[i..]]
  {
    assert LevelEnd(s, i) == |s|;
  }
}
