// The newsgroup name scanner of actsync (backends/actsync.c): one pass over the
// characters of a name, against the grammar of dot-separated components.
module GroupName {

  predicate Alpha(c: char) { 'a' <= c <= 'z' || 'A' <= c <= 'Z' }

  predicate Digit(c: char) { '0' <= c <= '9' }

  predicate Mark(c: char) { c == '+' || c == '-' || c == '_' }

  predicate Wordy(c: char) { Alpha(c) || Digit(c) || Mark(c) }

  lemma Among(c: char, first: char, s: string)
    requires s != "" && forall i :: 0 <= i < |s| ==> s[i] as int == first as int + i
    ensures first as int <= c as int < first as int + |s| <==> c in s
  {
    if first as int <= c as int < first as int + |s| {
      assert s[c as int - first as int] == c;
    }
  }

  // Which characters a component may have, one by one.
  lemma WordyAre(c: char)
    ensures Alpha(c) <==> c in "ABCDEFGHIJKLMNOPQRSTUVWXYZ" || c in "abcdefghijklmnopqrstuvwxyz"
    ensures Digit(c) <==> c in "0123456789"
    ensures Wordy(c) <==> Alpha(c) || Digit(c) || c in "+-_"
  {
    Among(c, 'A', "ABCDEFGHIJKLMNOPQRSTUVWXYZ");
    Among(c, 'a', "abcdefghijklmnopqrstuvwxyz");
    Among(c, '0', "0123456789");
    if Mark(c) {
      assert "+-_"[0] == '+' && "+-_"[1] == '-' && "+-_"[2] == '_';
    }
  }

  // The components of a name: what stands between its dots.
  function Parts(name: string): (parts: seq<string>)
    ensures |parts| > 0
  {
    if name == "" then [""] else
      var before, c := Parts(name[..|name| - 1]), name[|name| - 1];
      if c == '.' then before + [""]
      else before[|before| - 1 := before[|before| - 1] + [c]]
  }

  function Joined(parts: seq<string>): string
    requires |parts| > 0
  {
    if |parts| == 1 then parts[0]
    else Joined(parts[..|parts| - 1]) + "." + parts[|parts| - 1]
  }

  // Parts cuts at the dots and nowhere else.
  lemma {:induction false} PartsSplit(name: string)
    ensures Joined(Parts(name)) == name
    ensures forall part :: part in Parts(name) ==> '.' !in part
  {
    if name != "" {
      var before, c := Parts(name[..|name| - 1]), name[|name| - 1];
      PartsSplit(name[..|name| - 1]);
      assert name == name[..|name| - 1] + [c];
      if c == '.' {
        assert (before + [""])[..|before|] == before;
      } else {
        var parts := Parts(name);
        assert parts[..|parts| - 1] == before[..|before| - 1];
        if |parts| > 1 {
          assert Joined(parts) == Joined(before) + [c];
        }
      }
    }
  }

  // Without the last character of the last component.
  lemma ShorterJoined(parts: seq<string>)
    requires |parts| > 0 && parts[|parts| - 1] != ""
    requires forall part :: part in parts ==> '.' !in part
    ensures var last := parts[|parts| - 1];
      var shorter := parts[|parts| - 1 := last[..|last| - 1]];
      && Joined(parts) == Joined(shorter) + [last[|last| - 1]] && last[|last| - 1] != '.'
      && forall part :: part in shorter ==> '.' !in part
  {
    var last := parts[|parts| - 1];
    var shorter := parts[|parts| - 1 := last[..|last| - 1]];
    assert last == last[..|last| - 1] + [last[|last| - 1]] && last in parts;
    assert last[|last| - 1] in last;
    assert shorter[..|parts| - 1] == parts[..|parts| - 1];
    forall part | part in shorter
      ensures '.' !in part
    {
      assert last in parts;
      var k :| 0 <= k < |shorter| && shorter[k] == part;
      assert part == parts[k] || part == last[..|last| - 1];
    }
  }

  // And it is the only such cutting.
  lemma {:induction false} PartsUnique(parts: seq<string>)
    requires |parts| > 0
    requires forall part :: part in parts ==> '.' !in part
    ensures Parts(Joined(parts)) == parts
    decreases |parts|, |parts[|parts| - 1]|
  {
    var last := parts[|parts| - 1];
    var name := Joined(parts);
    if last != "" {
      var shorter := parts[|parts| - 1 := last[..|last| - 1]];
      ShorterJoined(parts);
      PartsUnique(shorter);
      assert name[..|name| - 1] == Joined(shorter);
      assert last == last[..|last| - 1] + [last[|last| - 1]];
      assert Parts(name) == shorter[|parts| - 1 := last];
      assert shorter[|parts| - 1 := last] == parts;
    } else if |parts| > 1 {
      var front := parts[..|parts| - 1];
      PartsUnique(front);
      assert name == Joined(front) + ".";
      assert name[..|name| - 1] == Joined(front);
      assert parts == front + [""];
    }
  }

  // What has been cut off before the last component stays; the last one may grow.
  lemma {:induction false} PartsGrow(s: string, t: string)
    ensures var a, b := Parts(s), Parts(s + t);
      |a| <= |b| && a[..|a| - 1] == b[..|a| - 1] && a[|a| - 1] <= b[|a| - 1]
    ensures t != "" && t[0] == '.' ==>
      |Parts(s)| < |Parts(s + t)| && Parts(s + t)[|Parts(s)| - 1] == Parts(s)[|Parts(s)| - 1]
    ensures t != "" && t[0] != '.' ==> Parts(s)[|Parts(s)| - 1] + [t[0]] <= Parts(s + t)[|Parts(s)| - 1]
  {
    if t == "" {
      assert s + t == s;
    } else {
      var u := t[..|t| - 1];
      PartsGrow(s, u);
      assert (s + t)[..|s + t| - 1] == s + u;
      if u == "" {
        assert s + u == s;
      }
    }
  }

  predicate Named(part: string, numChk: bool) {
    part != ""
    && (forall c :: c in part ==> Wordy(c))
    && (numChk ==> exists c :: c in part && !Digit(c))
  }

  // At most gFlag dots when that is positive; every component non-empty, over the
  // allowed characters, and not all digits when that is checked for.
  predicate WellFormed(name: string, numChk: bool, gFlag: int) {
    (gFlag > 0 ==> |Parts(name)| - 1 <= gFlag)
    && forall part :: part in Parts(name) ==> Named(part, numChk)
  }

  // The character at a place, or the end of the string.
  function At(name: string, p: nat): char {
    if p < |name| then name[p] else '\0'
  }

  // Components that are complete, and the one being read.
  ghost predicate Scanned(name: string, p: nat, numChk: bool, gFlag: int, level: int, nonNum: bool)
    requires p <= |name|
  {
    var parts := Parts(name[..p]);
    var last := parts[|parts| - 1];
    (forall k :: 0 <= k < |parts| - 1 ==> Named(parts[k], numChk))
    && Named(last, false)
    && (nonNum <==> exists c :: c in last && !Digit(c))
    && (gFlag > 0 ==> level == |parts| - 1 <= gFlag)
  }

  lemma Appended(name: string, p: nat, c: char)
    requires p < |name| && name[p] == c
    ensures c == '.' ==> Parts(name[..p + 1]) == Parts(name[..p]) + [""]
    ensures c != '.' ==>
      var before := Parts(name[..p]); Parts(name[..p + 1]) == before[|before| - 1 := before[|before| - 1] + [c]]
  {
    assert name[..p + 1][..p] == name[..p];
  }

  // A component that cannot be completed from here spoils the whole name.
  lemma Spoilt(name: string, p: nat, numChk: bool, gFlag: int, level: int, nonNum: bool)
    requires p <= |name| && Scanned(name, p, numChk, gFlag, level, nonNum)
    requires || (p < |name| && name[p] != '.' && !Wordy(name[p]))
             || (p < |name| && name[p] == '.' && gFlag > 0 && level + 1 > gFlag)
             || (p < |name| && name[p] == '.' && !Wordy(At(name, p + 1)))
             || ((p == |name| || name[p] == '.') && numChk && !nonNum)
    ensures !WellFormed(name, numChk, gFlag)
  {
    var s, t := name[..p], name[p..];
    assert name == s + t;
    PartsGrow(s, t);
    var a, b := Parts(s), Parts(name);
    var n := |a| - 1;
    if p < |name| && name[p] != '.' && !Wordy(name[p]) {
      assert b[n][|a[n]|] == (a[n] + [t[0]])[|a[n]|] == t[0];
      assert b[n] in b && t[0] in b[n];
    } else if numChk && !nonNum && (p == |name| || name[p] == '.') {
      assert p == |name| ==> s == name;
      assert b[n] == a[n] && b[n] in b;
    } else if !(gFlag > 0 && level + 1 > gFlag) {
      Appended(name, p, '.');
      var dotted := name[..p + 1];
      assert name == dotted + name[p + 1..];
      PartsGrow(dotted, name[p + 1..]);
      var d := Parts(dotted);
      assert d[n + 1] == "";
      assert b[n + 1] in b;
      if p + 1 == |name| {
        assert dotted == name;
      } else if name[p + 1] != '.' {
        assert b[n + 1][0] == ("" + [name[p + 1]])[0];
        assert name[p + 1] in b[n + 1];
      }
    }
  }

  lemma FirstBad(name: string, numChk: bool, gFlag: int)
    requires !Wordy(At(name, 0))
    ensures !WellFormed(name, numChk, gFlag)
  {
    var parts := Parts(name);
    if name != "" {
      PartsGrow("", name);
      assert "" + name == name;
      assert parts[0] in parts;
      if name[0] != '.' {
        assert parts[0][0] == ("" + [name[0]])[0];
        assert name[0] in parts[0];
      }
    } else {
      assert parts[0] in parts;
    }
  }

  lemma FirstGood(name: string, numChk: bool, gFlag: int)
    requires Wordy(At(name, 0))
    ensures |name| > 0 && Scanned(name, 1, numChk, gFlag, 0, !Digit(name[0]))
  {
    assert name != "";
    var c := name[0];
    Appended(name, 0, c);
    assert name[..0] == "";
    assert "" + [c] == [c];
    assert Parts("") == [""];
    assert Parts(name[..1]) == [""][0 := [c]];
    assert c in [c];
  }

  // One more character of the component being read.
  lemma Extended(name: string, p: nat, numChk: bool, gFlag: int, level: int, nonNum: bool)
    requires p < |name| && Scanned(name, p, numChk, gFlag, level, nonNum) && Wordy(name[p])
    ensures Scanned(name, p + 1, numChk, gFlag, level, nonNum || !Digit(name[p]))
  {
    Appended(name, p, name[p]);
    var before, after := Parts(name[..p]), Parts(name[..p + 1]);
    var n := |before| - 1;
    assert after[n] == before[n] + [name[p]];
    assert name[p] in after[n];
  }

  // A dot that completes a component, and the first character of the next.
  lemma Opened(name: string, p: nat, numChk: bool, gFlag: int, level: int, nonNum: bool)
    requires p + 1 < |name| && Scanned(name, p, numChk, gFlag, level, nonNum)
    requires name[p] == '.' && Wordy(name[p + 1]) && (numChk ==> nonNum) && (gFlag > 0 ==> level + 1 <= gFlag)
    ensures Scanned(name, p + 2, numChk, gFlag, level + 1, !Digit(name[p + 1]))
  {
    Appended(name, p, '.');
    Appended(name, p + 1, name[p + 1]);
    var before, after := Parts(name[..p]), Parts(name[..p + 2]);
    var dotted := before + [""];
    assert "" + [name[p + 1]] == [name[p + 1]];
    assert after == dotted[|before| := [name[p + 1]]];
    assert after == before + [[name[p + 1]]];
    assert name[p + 1] in [name[p + 1]];
  }

  lemma Complete(name: string, numChk: bool, gFlag: int, level: int, nonNum: bool)
    requires Scanned(name, |name|, numChk, gFlag, level, nonNum) && (numChk ==> nonNum)
    ensures WellFormed(name, numChk, gFlag)
  {
    assert name[..|name|] == name;
    var parts := Parts(name);
    forall part | part in parts
      ensures Named(part, numChk)
    {
      var k :| 0 <= k < |parts| && parts[k] == part;
    }
  }

  // 0 when the name is good, 1 when it is bad.
  method BadName(name: string, numChk: bool, gFlag: int) returns (bad: int)
    ensures bad == if WellFormed(name, numChk, gFlag) then 0 else 1
  {
    hide WellFormed;
    var nonNum: bool;
    if Alpha(At(name, 0)) || Mark(At(name, 0)) {
      nonNum := true;
    } else if Digit(At(name, 0)) {
      nonNum := false;
    } else {
      FirstBad(name, numChk, gFlag);
      return 1;
    }
    FirstGood(name, numChk, gFlag);
    var level, p := 0, 1;
    while p < |name|
      invariant 1 <= p <= |name|
      invariant Scanned(name, p, numChk, gFlag, level, nonNum)
      invariant level >= 0
    {
      if Alpha(name[p]) || Mark(name[p]) {
        Extended(name, p, numChk, gFlag, level, nonNum);
        nonNum := true;
      } else if Digit(name[p]) {
        Extended(name, p, numChk, gFlag, level, nonNum);
      } else {
        if name[p] != '.' {
          Spoilt(name, p, numChk, gFlag, level, nonNum);
          return 1;
        }
        if gFlag > 0 {
          level := level + 1;
          if level > gFlag {
            Spoilt(name, p, numChk, gFlag, level - 1, nonNum);
            return 1;
          }
        }
        if !((!numChk || nonNum) && Wordy(At(name, p + 1))) {
          Spoilt(name, p, numChk, gFlag, if gFlag > 0 then level - 1 else level, nonNum);
          return 1;
        }
        Opened(name, p, numChk, gFlag, if gFlag > 0 then level - 1 else level, nonNum);
        p := p + 1;
        nonNum := !Digit(name[p]);
      }
      p := p + 1;
    }
    assert name[..p] == name;
    if numChk && !nonNum {
      Spoilt(name, p, numChk, gFlag, level, nonNum);
      return 1;
    }
    Complete(name, numChk, gFlag, level, nonNum);
    return 0;
  }
}
