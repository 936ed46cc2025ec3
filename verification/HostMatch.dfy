/**
 Matching a request's host against a route's host pattern, on UTF-8 bytes: the whole pattern
 ignoring case, or one extra label in place of a leading `*`.
 */
module HostMatch {
  import opened Common

  const DOT: Byte := 46
  const STAR: Byte := 42

  function Lower(b: Byte): Byte { if 65 <= b <= 90 then b + 32 else b }

  predicate SameIgnoringCase(a: Bytes, b: Bytes) {
    |a| == |b| && forall i :: 0 <= i < |a| ==> Lower(a[i]) == Lower(b[i])
  }

  /** Equal but for capital and small ASCII letters, 32 apart. */
  lemma SameIgnoringCaseIff(a: Bytes, b: Bytes)
    ensures SameIgnoringCase(a, b) <==>
              |a| == |b| && forall i :: 0 <= i < |a| ==>
                || a[i] == b[i]
                || (65 <= a[i] <= 90 && b[i] == a[i] + 32)
                || (65 <= b[i] <= 90 && a[i] == b[i] + 32)
  {
    forall i | 0 <= i < |a| && i < |b|
      ensures Lower(a[i]) == Lower(b[i]) <==>
                a[i] == b[i] || (65 <= a[i] <= 90 && b[i] == a[i] + 32) || (65 <= b[i] <= 90 && a[i] == b[i] + 32)
    {
    }
  }

  // ---------- slicing text ----------

  /** A slice of a string may begin or end only where no character is split: not at a continuation byte. */
  predicate Boundary(s: Bytes, i: nat) { i <= |s| && (i == |s| || !(0x80 <= s[i] < 0xC0)) }

  /** In UTF-8 a continuation byte never comes first and never follows a one-byte
      character. */
  predicate Utf8(s: Bytes) { Boundary(s, 0) && forall i :: 0 <= i < |s| && s[i] < 0x80 ==> Boundary(s, i + 1) }

  function Slice(s: Bytes, from: nat, to: nat): Bytes
    requires from <= to && Boundary(s, from) && Boundary(s, to)
  {
    s[from..to]
  }

  // ---------- matching ----------

  /** `host` is one label, a dot, and `suffix` up to case. */
  ghost predicate OneLabelBefore(suffix: Bytes, host: Bytes, first: Bytes) {
    && first != [] && DOT !in first
    && |host| == |first| + 1 + |suffix| && host[..|first|] == first && host[|first|] == DOT
    && SameIgnoringCase(suffix, host[|first| + 1..])
  }

  /** What a host pattern accepts. */
  ghost predicate Accepts(pattern: Bytes, host: Bytes) {
    || SameIgnoringCase(pattern, host)
    || (|pattern| >= 2 && pattern[..2] == [STAR, DOT] && exists first :: OneLabelBefore(pattern[2..], host, first))
  }

  /** Matching by position from the end of the host. */
  predicate Matches(pattern: Bytes, host: Bytes) {
    || SameIgnoringCase(pattern, host)
    || (|pattern| >= 2 && pattern[0] == STAR && pattern[1] == DOT && MatchesLabel(pattern[2..], host))
  }

  predicate MatchesLabel(suffix: Bytes, host: Bytes) {
    var at := |host| - |suffix| - 1;
    && at > 0 && host[at] == DOT && DOT !in host[..at] && SameIgnoringCase(suffix, host[at + 1..])
  }

  /** Never slices a string out of range or inside a character. */
  method MatchHost(pattern: Bytes, host: Bytes) returns (r: bool)
    requires Utf8(host)
    ensures r == Matches(pattern, host)
  {
    if SameIgnoringCase(pattern, host) { return true; }
    if |pattern| >= 2 && pattern[0] == STAR && pattern[1] == DOT {
      var suffix := pattern[2..];
      if |host| > |suffix| + 1 && host[|host| - |suffix| - 1] == DOT {
        var at := |host| - |suffix| - 1;
        var first := Slice(host, 0, at);
        if first == [] || DOT in first { return false; }
        assert host[0..at] == host[..at] && host[at + 1..|host|] == host[at + 1..];
        return SameIgnoringCase(suffix, Slice(host, at + 1, |host|));
      }
    }
    r := false;
  }

  lemma MatchesIffAccepts(pattern: Bytes, host: Bytes)
    ensures Matches(pattern, host) <==> Accepts(pattern, host)
  {
    if |pattern| >= 2 {
      assert pattern[..2] == [pattern[0], pattern[1]];
      LabelIff(pattern[2..], host);
    }
  }

  lemma LabelIff(suffix: Bytes, host: Bytes)
    ensures MatchesLabel(suffix, host) <==> exists first :: OneLabelBefore(suffix, host, first)
  {
    if MatchesLabel(suffix, host) { assert OneLabelBefore(suffix, host, host[..|host| - |suffix| - 1]); }
  }
}
