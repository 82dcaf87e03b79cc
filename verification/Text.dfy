/** String helpers shared by the services: digest syntax, trimming and lower-casing (ASCII). */
module Text {

  predicate HexDigit(c: char) {
    '0' <= c <= '9' || 'a' <= c <= 'f' || 'A' <= c <= 'F'
  }

  /** What ParseDigest accepts. */
  predicate ValidDigest(d: string) {
    |d| == 71 && d[..7] == "sha256:" && forall i :: 7 <= i < 71 ==> HexDigit(d[i])
  }

  predicate Space(c: char) {
    c == ' ' || c == '\t' || c == '\n' || c == '\r' || c == '\U{000B}' || c == '\U{000C}'
  }

  function TrimLeft(s: string): string {
    if s != [] && Space(s[0]) then TrimLeft(s[1..]) else s
  }

  function TrimRight(s: string): string {
    if s != [] && Space(s[|s| - 1]) then TrimRight(s[..|s| - 1]) else s
  }

  function Trim(s: string): string { TrimRight(TrimLeft(s)) }

  predicate Trimmed(s: string) {
    s == [] || (!Space(s[0]) && !Space(s[|s| - 1]))
  }

  function LowerChar(c: char): char {
    if 'A' <= c <= 'Z' then (c as int + 32) as char else c
  }

  function Lower(s: string): (r: string)
    ensures |r| == |s| && forall i :: 0 <= i < |s| ==> r[i] == LowerChar(s[i])
  {
    seq(|s|, i requires 0 <= i < |s| => LowerChar(s[i]))
  }

  lemma {:induction false} TrimLeftStarts(s: string)
    ensures TrimLeft(s) == [] || !Space(TrimLeft(s)[0])
  {
    if s != [] && Space(s[0]) { TrimLeftStarts(s[1..]); }
  }

  lemma {:induction false} TrimRightKeepsStart(s: string)
    requires s == [] || !Space(s[0])
    ensures Trimmed(TrimRight(s))
  {
    if s != [] && Space(s[|s| - 1]) { TrimRightKeepsStart(s[..|s| - 1]); }
  }

  /** Trimming leaves no outer space, so trimming again changes nothing. */
  lemma TrimIdempotent(s: string)
    ensures Trimmed(Trim(s)) && Trim(Trim(s)) == Trim(s)
  {
    TrimLeftStarts(s);
    TrimRightKeepsStart(TrimLeft(s));
  }

  /** Lower-casing is idempotent and keeps a trimmed string trimmed. */
  lemma LowerTrim(s: string)
    ensures Lower(Lower(s)) == Lower(s) && Trimmed(Lower(Trim(s)))
  {
    TrimIdempotent(s);
  }

  ghost predicate AllSpace(s: string) { forall i :: 0 <= i < |s| ==> Space(s[i]) }

  lemma {:induction false} TrimLeftDrops(s: string) returns (front: string)
    ensures s == front + TrimLeft(s) && AllSpace(front)
  {
    if s != [] && Space(s[0]) {
      var rest := TrimLeftDrops(s[1..]);
      front := [s[0]] + rest;
    } else {
      front := [];
    }
  }

  lemma {:induction false} TrimRightDrops(s: string) returns (back: string)
    ensures s == TrimRight(s) + back && AllSpace(back)
  {
    if s != [] && Space(s[|s| - 1]) {
      var rest := TrimRightDrops(s[..|s| - 1]);
      back := rest + [s[|s| - 1]];
    } else {
      back := [];
    }
  }

  /** Trimming takes off outer space, all of it and nothing else. */
  lemma TrimExact(s: string) returns (front: string, back: string)
    ensures s == front + Trim(s) + back && AllSpace(front) && AllSpace(back) && Trimmed(Trim(s))
  {
    TrimIdempotent(s);
    front := TrimLeftDrops(s);
    back := TrimRightDrops(TrimLeft(s));
  }
}
