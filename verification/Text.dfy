/** C strings, character classes of the C locale, and the scanning helpers the parsers share.
    A C string is the sequence of its characters before the terminator; a function that consumes
    input returns the suffix it leaves, and the loops that do the same work move an index. */
module Text {
  datatype Parsed<+T> = Parsed(value: T, rest: string)

  predicate IsSpace(c: char) {
    c == ' ' || c == '\t' || c == '\n' || c == '\r' || c == 11 as char || c == 12 as char
  }

  predicate IsWord(c: char) {
    'a' <= c <= 'z' || 'A' <= c <= 'Z' || '0' <= c <= '9' || c == '_'
  }

  function Lower(c: char): char {
    if 'A' <= c <= 'Z' then (c as int + 32) as char else c
  }

  /** `isspace`, `isalnum` with the underscore, and `tolower`, by their codes in the C locale. */
  lemma CharacterCodes(c: char)
    ensures IsSpace(c) <==> c as int == 32 || 9 <= c as int <= 13
    ensures IsWord(c) <==> c as int == 95 || 48 <= c as int <= 57 || 65 <= c as int <= 90 || 97 <= c as int <= 122
    ensures Lower(c) as int == c as int + if 65 <= c as int <= 90 then 32 else 0
  {
  }

  /** What a buffer of `size` characters keeps of `s`: all but the terminator's place. */
  function Cap(s: string, size: nat): (r: string)
    requires size > 0
    ensures |r| < size && r <= s
    ensures |s| < size ==> r == s
    ensures |s| >= size ==> |r| == size - 1
  {
    if |s| < size then s else s[..size - 1]
  }

  function Joined<T>(parts: seq<seq<T>>): seq<T> {
    if parts == [] then [] else Joined(parts[..|parts| - 1]) + parts[|parts| - 1]
  }

  lemma JoinedMore<T>(parts: seq<seq<T>>, part: seq<T>)
    ensures Joined(parts + [part]) == Joined(parts) + part
  {
    assert (parts + [part])[..|parts|] == parts;
  }

  function SkipWs(s: string): (r: string)
    ensures |r| <= |s|
    ensures r != [] ==> !IsSpace(r[0]) && r[|r| - 1] == s[|s| - 1]
  {
    if s != [] && IsSpace(s[0]) then SkipWs(s[1..]) else s
  }

  function TrimRight(s: string): (r: string)
    ensures r <= s
    ensures r != [] ==> !IsSpace(r[|r| - 1])
  {
    if s != [] && IsSpace(s[|s| - 1]) then TrimRight(s[..|s| - 1]) else s
  }

  function Trim(s: string): (r: string)
    ensures |r| <= |s|
    ensures r != [] ==> !IsSpace(r[0]) && !IsSpace(r[|r| - 1])
  {
    SkipWs(TrimRight(s))
  }

  predicate Trimmed(s: string) {
    s == [] || (!IsSpace(s[0]) && !IsSpace(s[|s| - 1]))
  }

  /** Trimming keeps the text between the first and the last visible character, and nothing else. */
  lemma TrimMeans(before: string, core: string, after: string)
    requires forall c :: c in before + after ==> IsSpace(c)
    requires Trimmed(core)
    ensures Trim(before + core + after) == core
  {
    TrimRightMeans(before + core, after);
    if core == [] {
      assert before + core == [] + before;
      TrimRightMeans([], before);
    } else {
      assert (before + core)[|before + core| - 1] == core[|core| - 1];
      assert TrimRight(before + core) == before + core;
      SkipWsMeans(before, core);
    }
  }

  lemma {:induction false} TrimRightMeans(s: string, after: string)
    requires forall c :: c in after ==> IsSpace(c)
    ensures TrimRight(s + after) == TrimRight(s)
    decreases |after|
  {
    if after == [] {
      assert s + after == s;
    } else {
      var init := after[..|after| - 1];
      assert (s + after)[..|s + after| - 1] == s + init;
      assert after[|after| - 1] in after;
      TrimRightMeans(s, init);
    }
  }

  lemma {:induction false} SkipWsMeans(before: string, core: string)
    requires forall c :: c in before ==> IsSpace(c)
    requires core != [] ==> !IsSpace(core[0])
    ensures SkipWs(before + core) == core
  {
    if before == [] {
      assert before + core == core;
    } else {
      assert before[0] in before;
      assert (before + core)[1..] == before[1..] + core;
      SkipWsMeans(before[1..], core);
    }
  }

  /** `prefix` is written in lower case. */
  predicate StartsCI(s: string, prefix: string)
    decreases |prefix|
  {
    prefix == "" || (s != "" && Lower(s[0]) == Lower(prefix[0]) && StartsCI(s[1..], prefix[1..]))
  }

  lemma {:induction false} StartsCILength(s: string, prefix: string)
    requires StartsCI(s, prefix)
    ensures |prefix| <= |s|
    ensures forall i :: 0 <= i < |prefix| ==> Lower(s[i]) == Lower(prefix[i])
    decreases |prefix|
  {
    if prefix != "" {
      StartsCILength(s[1..], prefix[1..]);
      forall i | 0 <= i < |prefix|
        ensures Lower(s[i]) == Lower(prefix[i])
      {
        if i > 0 { assert s[1..][i - 1] == s[i] && prefix[1..][i - 1] == prefix[i]; }
      }
    }
  }

  /** The suffix that starts at the first match of `needle`, if there is one. */
  function FindCI(s: string, needle: string): (r: string)
    ensures |r| <= |s|
    ensures needle != "" && r != "" ==> StartsCI(r, needle)
  {
    if s == "" || StartsCI(s, needle) then s else FindCI(s[1..], needle)
  }

  /** Case does not matter, and nothing else is ignored. */
  lemma {:induction false} StartsCIExactly(s: string, prefix: string)
    ensures StartsCI(s, prefix) <==>
            |prefix| <= |s| && forall i :: 0 <= i < |prefix| ==> Lower(s[i]) == Lower(prefix[i])
    decreases |prefix|
  {
    if StartsCI(s, prefix) {
      StartsCILength(s, prefix);
    } else if prefix != "" && |prefix| <= |s| && Lower(s[0]) == Lower(prefix[0]) {
      StartsCIExactly(s[1..], prefix[1..]);
      var i :| 0 <= i < |prefix[1..]| && Lower(s[1..][i]) != Lower(prefix[1..][i]);
      assert Lower(s[i + 1]) != Lower(prefix[i + 1]);
    }
  }

  /** The first match, or the end. */
  lemma {:induction false} FindCIFirst(s: string, needle: string) returns (k: nat)
    requires needle != ""
    ensures k <= |s| && FindCI(s, needle) == s[k..]
    ensures k < |s| ==> StartsCI(s[k..], needle)
    ensures forall j :: 0 <= j < k ==> !StartsCI(s[j..], needle)
    decreases |s|
  {
    if s == "" || StartsCI(s, needle) {
      k := 0;
    } else {
      var later := FindCIFirst(s[1..], needle);
      k := later + 1;
      forall j | 0 <= j < k
        ensures !StartsCI(s[j..], needle)
      {
        if j > 0 { assert s[1..][j - 1..] == s[j..]; }
      }
      assert s[1..][k - 1..] == s[k..];
    }
  }

  lemma Suffix(s: string, p: nat)
    requires p < |s|
    ensures s[p..][0] == s[p] && s[p..][1..] == s[p + 1..]
    ensures p + 1 < |s| ==> s[p..][1] == s[p + 1] && s[p..][2..] == s[p + 2..]
  {
  }

  // ---- The loops ----

  method SkipWsAt(s: string, p: nat) returns (q: nat)
    requires p <= |s|
    ensures p <= q <= |s| && s[q..] == SkipWs(s[p..])
  {
    q := p;
    while q < |s| && IsSpace(s[q])
      invariant p <= q <= |s|
      invariant SkipWs(s[p..]) == SkipWs(s[q..])
    {
      Suffix(s, q);
      q := q + 1;
    }
  }

  method StartsCIAt(s: string, p: nat, prefix: string) returns (yes: bool)
    requires p <= |s|
    ensures yes == StartsCI(s[p..], prefix)
  {
    var i := 0;
    while i < |prefix|
      invariant 0 <= i <= |prefix| && p + i <= |s|
      invariant StartsCI(s[p..], prefix) == StartsCI(s[p + i..], prefix[i..])
    {
      if p + i == |s| || Lower(s[p + i]) != Lower(prefix[i]) { return false; }
      Suffix(s, p + i);
      Suffix(prefix, i);
      i := i + 1;
    }
    return true;
  }

  method FindCIAt(s: string, p: nat, needle: string) returns (q: nat)
    requires p <= |s| && needle != ""
    ensures p <= q <= |s| && s[q..] == FindCI(s[p..], needle)
  {
    q := p;
    while q < |s|
      invariant p <= q <= |s|
      invariant FindCI(s[p..], needle) == FindCI(s[q..], needle)
    {
      var here := StartsCIAt(s, q, needle);
      if here { return; }
      Suffix(s, q);
      q := q + 1;
    }
  }

  method EndOfText(buf: array<char>, len: nat) returns (n: nat)
    requires len <= buf.Length
    ensures n <= len && buf[..n] == TrimRight(buf[..len])
  {
    n := len;
    while n > 0 && IsSpace(buf[n - 1])
      invariant n <= len && TrimRight(buf[..len]) == TrimRight(buf[..n])
    {
      assert buf[..n][..n - 1] == buf[..n - 1];
      n := n - 1;
    }
  }

  method StartOfText(buf: array<char>, n: nat) returns (start: nat)
    requires n <= buf.Length
    ensures start <= n && buf[start..n] == SkipWs(buf[..n])
  {
    start := 0;
    while start < n && IsSpace(buf[start])
      invariant start <= n && SkipWs(buf[..n]) == SkipWs(buf[start..n])
    {
      assert buf[start..n][1..] == buf[start + 1..n];
      start := start + 1;
    }
  }

  /** Trims the first `len` characters of a buffer where they stand. */
  method TrimInPlace(buf: array<char>, len: nat) returns (n: nat)
    requires len <= buf.Length
    modifies buf
    ensures n <= len && buf[..n] == Trim(old(buf[..len]))
  {
    var end := EndOfText(buf, len);
    var start := StartOfText(buf, end);
    n := end - start;
    forall i | 0 <= i < n {
      buf[i] := buf[start + i];
    }
    assert buf[..n] == old(buf[start..end]);
  }
}
