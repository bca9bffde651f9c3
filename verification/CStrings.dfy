/** Strings that end at their first NUL. */
module CStrings {
  /** The characters before the first terminator. */
  function CString(s: seq<char>): string {
    if |s| == 0 || s[0] == '\0' then "" else [s[0]] + CString(s[1..])
  }

  lemma {:induction false} CStringEnds(text: string, rest: seq<char>)
    requires forall i :: 0 <= i < |text| ==> text[i] != '\0'
    ensures CString(text + ['\0'] + rest) == text
    ensures CString(text) == text
  {
    if |text| > 0 {
      CStringEnds(text[1..], rest);
      assert (text + ['\0'] + rest)[1..] == text[1..] + ['\0'] + rest;
    }
  }

  lemma {:induction false} CStringSmall(s: string)
    requires forall i :: 0 <= i < |s| ==> s[i] as int < 256
    ensures forall i :: 0 <= i < |CString(s)| ==> CString(s)[i] as int < 256
  {
    if |s| > 0 {
      CStringSmall(s[1..]);
    }
  }

  lemma {:induction false} CStringPrefix(s: string)
    ensures CString(s) <= s && '\0' !in CString(s)
  {
    if |s| > 0 {
      CStringPrefix(s[1..]);
    }
  }

  /** With a terminator in the array, the string ends at the first one. */
  lemma {:induction false} CStringBounds(s: seq<char>)
    requires '\0' in s
    ensures var n := |CString(s)|; n < |s| && s[n] == '\0' && s[..n] == CString(s)
  {
    if s[0] != '\0' {
      CStringBounds(s[1..]);
    }
  }

  // ---------------------------------------------------------------- strings in an array

  /** The characters from `cur` to the next NUL are `s`. */
  predicate HoldsAt(b: seq<char>, cur: nat, s: string) {
    cur + |s| < |b| && b[cur..cur + |s|] == s && b[cur + |s|] == '\0' && '\0' !in s
  }

  /** The first character of the string, or its terminator. */
  lemma Head(b: seq<char>, cur: nat, s: string)
    requires HoldsAt(b, cur, s)
    ensures cur < |b| && b[cur] == if s == "" then '\0' else s[0]
    ensures s != "" ==> b[cur] != '\0'
  {
    if s != "" {
      assert s[0] == b[cur..cur + |s|][0];
    }
  }

  lemma Tail(b: seq<char>, cur: nat, s: string)
    requires HoldsAt(b, cur, s) && s != ""
    ensures HoldsAt(b, cur + 1, s[1..])
  {
    assert b[cur + 1..cur + |s|] == b[cur..cur + |s|][1..];
  }

  /** Any character up to the terminator. */
  lemma Char(b: seq<char>, cur: nat, s: string, k: nat)
    requires HoldsAt(b, cur, s) && k <= |s|
    ensures cur + k < |b| && b[cur + k] == if k < |s| then s[k] else '\0'
    ensures b[cur + k] == '\0' <==> k == |s|
  {
    if k < |s| {
      assert s[k] == b[cur..cur + |s|][k] && s[k] in s;
    }
  }

  lemma HoldsOne(b: seq<char>, cur: nat, s: string, t: string)
    requires HoldsAt(b, cur, s) && HoldsAt(b, cur, t)
    ensures s == t
  {
    if |s| <= |t| {
      Char(b, cur, t, |s|);
    } else {
      Char(b, cur, s, |t|);
    }
  }

  /** What a NUL at `end`, or an earlier one, ends. */
  lemma HoldsSome(b: seq<char>, cur: nat, end: nat) returns (s: string)
    requires cur <= end < |b| && b[end] == '\0'
    ensures HoldsAt(b, cur, s) && cur + |s| <= end
  {
    var t := b[cur..end + 1];
    assert t[end - cur] == '\0';
    CStringBounds(t);
    CStringPrefix(t);
    s := CString(t);
    assert b[cur..cur + |s|] == t[..|s|];
  }

  /** More characters behind the string, and a new terminator. */
  lemma Grown(b: seq<char>, b': seq<char>, cur: nat, s: string, got: string)
    requires HoldsAt(b, cur, s) && '\0' !in got && |b'| == |b|
    requires cur + |s| + |got| < |b| && b'[cur + |s| + |got|] == '\0'
    requires b'[..cur + |s|] == b[..cur + |s|] && b'[cur + |s|..cur + |s| + |got|] == got
    ensures HoldsAt(b', cur, s + got)
  {
    assert b'[cur..cur + |s|] == b'[..cur + |s|][cur..];
    assert b'[cur..cur + |s| + |got|] == b'[cur..cur + |s|] + b'[cur + |s|..cur + |s| + |got|];
  }

  lemma Emptied(b: seq<char>)
    ensures forall cur: nat :: cur < |b| && b[cur] == '\0' ==> HoldsAt(b, cur, "")
  {
  }

  lemma EndsBy(b: seq<char>, cur: nat, s: string, end: nat)
    requires HoldsAt(b, cur, s) && cur <= end < |b| && b[end] == '\0'
    ensures cur + |s| <= end
  {
    hide HoldsAt;
    if end < cur + |s| {
      Char(b, cur, s, end - cur);
    }
  }

  lemma Cut(b: seq<char>, cur: nat, s: string, n: nat)
    requires HoldsAt(b, cur, s) && n <= |s|
    ensures cur + n < |b| && b[cur..cur + n] == s[..n]
    ensures n < |s| ==> HoldsAt(b, cur + n + 1, s[n + 1..])
  {
    assert b[cur..cur + n] == b[cur..cur + |s|][..n];
    if n < |s| {
      assert b[cur + n + 1..cur + |s|] == b[cur..cur + |s|][n + 1..];
    }
  }

  lemma SameBehind(b: seq<char>, b': seq<char>, cur: nat, s: string)
    requires HoldsAt(b, cur, s) && |b'| == |b| && forall k :: cur <= k < |b| ==> b'[k] == b[k]
    ensures HoldsAt(b', cur, s)
  {
    assert b'[cur..cur + |s|] == b[cur..cur + |s|];
  }

  /** A terminator stored inside a string makes two strings of it. */
  lemma CutTwo(b: seq<char>, cur: nat, s: string, n: nat)
    requires HoldsAt(b, cur, s) && n <= |s|
    ensures cur + n < |b| && HoldsAt(b[cur + n := '\0'], cur, s[..n])
    ensures n < |s| ==> HoldsAt(b[cur + n := '\0'], cur + n + 1, s[n + 1..])
  {
    Cut(b, cur, s, n);
    var b' := b[cur + n := '\0'];
    assert b'[cur..cur + n] == b[cur..cur + n];
    if n < |s| { SameBehind(b, b', cur + n + 1, s[n + 1..]); }
  }

  /** What follows after `n` characters. */
  lemma Later(b: seq<char>, cur: nat, s: string, n: nat)
    requires HoldsAt(b, cur, s) && n <= |s|
    ensures HoldsAt(b, cur + n, s[n..])
  {
    assert b[cur + n..cur + |s|] == b[cur..cur + |s|][n..];
  }

  lemma SameBefore(b: seq<char>, b': seq<char>, cur: nat, s: string)
    requires HoldsAt(b, cur, s) && |b'| == |b| && forall k :: 0 <= k <= cur + |s| ==> b'[k] == b[k]
    ensures HoldsAt(b', cur, s)
  {
    assert b'[cur..cur + |s|] == b[cur..cur + |s|];
  }
}
