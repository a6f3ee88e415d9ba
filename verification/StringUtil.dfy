// lib/stringutil: trimmed strings without duplicates.
module StringUtil {
  import opened SliceUtil

  // strings.Trim(s, " ")
  function Trim(s: string): string {
    if s == "" then ""
    else if s[0] == ' ' then Trim(s[1..])
    else if s[|s| - 1] == ' ' then Trim(s[..|s| - 1])
    else s
  }

  predicate IsTrimmed(s: string) {
    s != "" ==> s[0] != ' ' && s[|s| - 1] != ' '
  }

  lemma {:induction false} TrimIsTrimmed(s: string)
    ensures IsTrimmed(Trim(s)) && (IsTrimmed(s) ==> Trim(s) == s)
    decreases |s|
  {
    if s != "" && s[0] == ' ' {
      TrimIsTrimmed(s[1..]);
    } else if s != "" && s[|s| - 1] == ' ' {
      TrimIsTrimmed(s[..|s| - 1]);
    }
  }

  // Only spaces go, and only from the ends.
  lemma {:induction false} TrimIs(s: string) returns (i: nat, j: nat)
    ensures i <= j <= |s| && Trim(s) == s[i..j]
    ensures forall k :: 0 <= k < i || j <= k < |s| ==> s[k] == ' '
    ensures i < j ==> s[i] != ' ' && s[j - 1] != ' '
    decreases |s|
  {
    if s == "" {
      i, j := 0, 0;
    } else if s[0] == ' ' {
      var rest := s[1..];
      i, j := TrimIs(rest);
      assert rest[i..j] == s[i + 1..j + 1];
      assert forall k :: 1 <= k < |s| ==> s[k] == rest[k - 1];
      i, j := i + 1, j + 1;
    } else if s[|s| - 1] == ' ' {
      var front := s[..|s| - 1];
      i, j := TrimIs(front);
      assert front[i..j] == s[i..j];
      assert forall k :: 0 <= k < |front| ==> s[k] == front[k];
    } else {
      i, j := 0, |s|;
    }
  }

  function UniqueTrimmed(ss: seq<string>): seq<string> {
    if ss == [] then []
    else
      var n := |ss| - 1;
      var us, v := UniqueTrimmed(ss[..n]), Trim(ss[n]);
      if v in us then us else us + [v]
  }

  method UniqueTrimmedStrings(ss: seq<string>) returns (us: seq<string>)
    ensures us == UniqueTrimmed(ss)
  {
    us := [];
    var m: set<string> := {};
    for i := 0 to |ss|
      invariant us == UniqueTrimmed(ss[..i]) && forall v :: v in m <==> v in us
    {
      assert ss[..i + 1][..i] == ss[..i];
      var v := Trim(ss[i]);
      if v in m {
        continue;
      }
      m := m + {v};
      us := us + [v];
    }
    assert ss[..|ss|] == ss;
  }

  ghost predicate AreUnique(us: seq<string>) {
    NoDuplicates(us) && forall v :: v in us ==> IsTrimmed(v)
  }

  ghost predicate IsTrimOf(ss: seq<string>, v: string) {
    exists s :: s in ss && Trim(s) == v
  }

  // Every string is there once, trimmed, and nothing else is.
  lemma {:induction false} UniqueTrimmedElements(ss: seq<string>)
    ensures AreUnique(UniqueTrimmed(ss))
    ensures forall v :: v in UniqueTrimmed(ss) <==> IsTrimOf(ss, v)
    decreases |ss|
  {
    if ss != [] {
      var n := |ss| - 1;
      var us := UniqueTrimmed(ss[..n]);
      UniqueTrimmedElements(ss[..n]);
      TrimIsTrimmed(ss[n]);
      assert forall i :: 0 <= i < |us| ==> us[i] in us;
      assert ss == ss[..n] + [ss[n]];
      forall v ensures IsTrimOf(ss, v) <==> IsTrimOf(ss[..n], v) || v == Trim(ss[n]) {
        OneMoreTrimmed(ss[..n], ss[n], v);
      }
    }
  }

  // First occurrences count: more strings only add to the end.
  lemma {:induction false} UniqueTrimmedGrows(ss: seq<string>, more: seq<string>)
    ensures UniqueTrimmed(ss) <= UniqueTrimmed(ss + more)
    decreases |more|
  {
    var all := ss + more;
    if more == [] {
      assert all == ss;
    } else {
      var n := |more| - 1;
      assert all[..|all| - 1] == ss + more[..n];
      UniqueTrimmedGrows(ss, more[..n]);
    }
  }

  lemma OneMoreTrimmed(ss: seq<string>, last: string, v: string)
    ensures IsTrimOf(ss + [last], v) <==> IsTrimOf(ss, v) || v == Trim(last)
  {
    assert last in ss + [last];
    if IsTrimOf(ss, v) {
      var s :| s in ss && Trim(s) == v;
      assert s in ss + [last];
    }
  }

  lemma {:induction false} UniqueTrimmedStays(us: seq<string>)
    requires AreUnique(us)
    ensures UniqueTrimmed(us) == us
    decreases |us|
  {
    if us != [] {
      var n := |us| - 1;
      assert us == us[..n] + [us[n]];
      UniqueTrimmedStays(us[..n]);
      TrimIsTrimmed(us[n]);
      assert us[n] !in us[..n];
    }
  }

  lemma {:induction false} FilteredIsUnique(us: seq<string>, keep: string -> bool)
    requires AreUnique(us)
    ensures AreUnique(Filter(us, keep))
    decreases |us|
  {
    if us != [] {
      assert us == [us[0]] + us[1..];
      FilteredIsUnique(us[1..], keep);
      var tail := Filter(us[1..], keep);
      assert forall i :: 0 <= i < |tail| ==> tail[i] in us[1..];
    }
  }
}
