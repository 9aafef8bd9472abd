/**
 * Strings as the modelled code uses them. No `char` is a surrogate, so `|s|` is JavaScript's
 * `s.length` for text in the basic multilingual plane.
 */
module Text {
  function Join(parts: seq<string>, separator: string): string {
    if parts == [] then ""
    else if |parts| == 1 then parts[0]
    else parts[0] + separator + Join(parts[1..], separator)
  }

  lemma {:induction false} JoinSnoc(parts: seq<string>, last: string, separator: string)
    ensures Join([last], separator) == last
    ensures parts != [] ==> Join(parts + [last], separator) == Join(parts, separator) + separator + last
  {
    var all := parts + [last];
    if |parts| == 1 {
      assert all[1..] == [last];
      assert parts[0] + separator + last == Join(parts, separator) + separator + last;
    } else if |parts| > 1 {
      JoinSnoc(parts[1..], last, separator);
      assert all[1..] == parts[1..] + [last];
      var rest := Join(parts[1..], separator);
      assert parts[0] + separator + (rest + separator + last) == parts[0] + separator + rest + separator + last;
    }
  }

  /** What `String.prototype.trim` removes: WhiteSpace and LineTerminator of ECMA-262. */
  predicate IsSpace(c: char) {
    || '\U{0009}' <= c <= '\U{000D}'
    || c == ' '
    || c == '\U{00A0}'
    || c == '\U{1680}'
    || '\U{2000}' <= c <= '\U{200A}'
    || c == '\U{2028}' || c == '\U{2029}'
    || c == '\U{202F}' || c == '\U{205F}'
    || c == '\U{3000}' || c == '\U{FEFF}'
  }

  /** By code: tab to carriage return, the space, and the 19 others of Unicode's space separators and line ends. */
  lemma SpacesByCode(c: char)
    ensures IsSpace(c) <==>
      c as int in {9, 10, 11, 12, 13, 32, 160, 5760, 8192, 8193, 8194, 8195, 8196, 8197, 8198, 8199, 8200, 8201, 8202,
                   8232, 8233, 8239, 8287, 12288, 65279}
  {
  }

  function TrimStart(s: string): (r: string)
    ensures r == [] || !IsSpace(r[0])
    ensures |r| <= |s| && r == s[|s| - |r|..]
  {
    if s != [] && IsSpace(s[0]) then TrimStart(s[1..]) else s
  }

  function TrimEnd(s: string): (r: string)
    ensures r == [] || !IsSpace(r[|r|-1])
    ensures |r| <= |s| && r == s[..|r|]
  {
    if s != [] && IsSpace(s[|s|-1]) then TrimEnd(s[..|s|-1]) else s
  }

  /** `s.trim()` */
  function Trim(s: string): (r: string)
    ensures r == [] || (!IsSpace(r[0]) && !IsSpace(r[|r|-1]))
    ensures Trimmed(s) ==> r == s
    ensures |r| <= |s|
  {
    TrimEnd(TrimStart(s))
  }

  predicate Trimmed(s: string) {
    s == [] || (!IsSpace(s[0]) && !IsSpace(s[|s|-1]))
  }

  predicate AllSpaces(s: string) {
    forall i :: 0 <= i < |s| ==> IsSpace(s[i])
  }

  lemma {:induction false} TrimStartDrops(s: string)
    ensures AllSpaces(s[..|s| - |TrimStart(s)|])
  {
    if s != [] && IsSpace(s[0]) {
      TrimStartDrops(s[1..]);
      var n := |s| - |TrimStart(s)|;
      forall i | 0 <= i < n ensures IsSpace(s[i]) {
        assert i > 0 ==> s[i] == s[1..][..n - 1][i - 1];
      }
    }
  }

  lemma {:induction false} TrimEndDrops(s: string)
    ensures AllSpaces(s[|TrimEnd(s)|..])
  {
    if s != [] && IsSpace(s[|s|-1]) {
      var front := s[..|s|-1];
      TrimEndDrops(front);
      forall i | |TrimEnd(s)| <= i < |s| ensures IsSpace(s[i]) {
        assert i < |s| - 1 ==> s[i] == front[|TrimEnd(s)|..][i - |TrimEnd(s)|];
      }
    }
  }

  lemma Parts(s: string, rest: string, middle: string)
    requires |middle| <= |rest| <= |s| && rest == s[|s| - |rest|..] && middle == rest[..|middle|]
    ensures s == s[..|s| - |rest|] + middle + rest[|middle|..]
  {
  }

  lemma TrimSteps(s: string)
    ensures Trim(s) == TrimEnd(TrimStart(s)) && Trimmed(Trim(s))
  {
  }

  /** Trimming drops white space at both ends, all of it, and nothing else. */
  lemma TrimExact(s: string) returns (before: string, after: string)
    ensures s == before + Trim(s) + after && AllSpaces(before) && AllSpaces(after) && Trimmed(Trim(s))
  {
    hide *;
    var rest := TrimStart(s);
    TrimSteps(s);
    TrimStartDrops(s);
    TrimEndDrops(rest);
    before, after := s[..|s| - |rest|], rest[|Trim(s)|..];
    Parts(s, rest, Trim(s));
  }

  lemma TrimIdempotent(s: string)
    ensures Trimmed(Trim(s)) && Trim(Trim(s)) == Trim(s)
  {
  }

  /** Lower-casing, as far as ASCII patterns can tell. */
  function AsciiLower(s: string): string {
    seq(|s|, i requires 0 <= i < |s| =>
      if 'A' <= s[i] <= 'Z' then (s[i] as int - 'A' as int + 'a' as int) as char else s[i])
  }

  /** `s.includes(part)` */
  predicate Includes(s: string, part: string) {
    exists i :: 0 <= i <= |s| && OccursAt(s, part, i)
  }

  predicate OccursAt(s: string, part: string, i: nat)
    requires i <= |s|
  {
    part <= s[i..]
  }

  predicate StartsWith(s: string, prefix: string) {
    prefix <= s
  }
}
