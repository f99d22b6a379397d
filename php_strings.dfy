/** The three PHP string primitives the caching client is built from:
    `str_replace` of one character by another, and `explode` / `implode`
    with a one-character delimiter. Strings are sequences of characters. */
module PhpStrings {

  /** `str_replace(from, to, s)` for single characters: every `from` becomes `to`. */
  function ReplaceChar(s: string, from: char, to: char): (r: string)
    ensures |r| == |s|
    ensures forall i :: 0 <= i < |s| ==> r[i] == (if s[i] == from then to else s[i])
  {
    if s == [] then [] else [if s[0] == from then to else s[0]] + ReplaceChar(s[1..], from, to)
  }

  /** Position of the first occurrence of `c` in `s`. */
  function IndexOf(s: string, c: char): (i: nat)
    requires c in s
    ensures i < |s| && s[i] == c && c !in s[..i]
  {
    if s[0] == c then 0
    else
      var j := IndexOf(s[1..], c);
      assert s[..j + 1] == [s[0]] + s[1..][..j];
      j + 1
  }

  /** `implode(glue, parts)`: the parts, with one glue character between neighbours. */
  function Implode(glue: char, parts: seq<string>): (s: string)
    ensures |parts| >= 1 ==> parts[0] <= s
  {
    if |parts| == 0 then ""
    else if |parts| == 1 then parts[0]
    else parts[0] + [glue] + Implode(glue, parts[1..])
  }

  /** `explode(sep, s)`: the maximal `sep`-free pieces of `s`, in order. PHP never
      returns an empty array here: the empty string explodes to `[""]`. */
  function Explode(sep: char, s: string): (parts: seq<string>)
    ensures |parts| >= 1
    ensures forall j :: 0 <= j < |parts| ==> sep !in parts[j]
    ensures Implode(sep, parts) == s
    decreases |s|
  {
    if sep !in s then [s]
    else
      var i := IndexOf(s, sep);
      var rest := Explode(sep, s[i + 1..]);
      assert ([s[..i]] + rest)[1..] == rest;
      assert s == s[..i] + [sep] + s[i + 1..];
      [s[..i]] + rest
  }

  /** Exploding an imploded list of delimiter-free parts gives the parts back. */
  lemma {:induction false} ExplodeImplode(sep: char, parts: seq<string>)
    requires |parts| >= 1
    requires forall j :: 0 <= j < |parts| ==> sep !in parts[j]
    ensures Explode(sep, Implode(sep, parts)) == parts
    decreases |parts|
  {
    if |parts| > 1 {
      ExplodeImplode(sep, parts[1..]);
      ExplodeGlued(sep, parts[0], Implode(sep, parts[1..]));
      assert parts == [parts[0]] + parts[1..];
    }
  }

  /** Exploding splits at the first delimiter: a delimiter-free head, the
      delimiter, then the rest. */
  lemma ExplodeGlued(sep: char, head: string, rest: string)
    requires sep !in head
    ensures Explode(sep, head + [sep] + rest) == [head] + Explode(sep, rest)
  {
    var s := head + [sep] + rest;
    assert s[|head|] == sep;
    var i := IndexOf(s, sep);
    assert s[..i] == head;
    assert s[i + 1..] == rest;
  }

  /** A delimiter between two strings splits their pieces apart: the pieces of
      the whole are the pieces of the left side followed by those of the right. */
  lemma ExplodeAppend(sep: char, a: string, b: string)
    ensures Explode(sep, a + [sep] + b) == Explode(sep, a) + Explode(sep, b)
  {
    var left, right := Explode(sep, a), Explode(sep, b);
    ImplodeAppend(sep, left, right);
    ExplodeImplode(sep, left + right);
  }

  /** Imploding two non-empty lists one after the other puts the glue between them. */
  lemma {:induction false} ImplodeAppend(glue: char, left: seq<string>, right: seq<string>)
    requires |left| >= 1 && |right| >= 1
    ensures Implode(glue, left + right) == Implode(glue, left) + [glue] + Implode(glue, right)
    decreases |left|
  {
    if |left| > 1 {
      assert (left + right)[1..] == left[1..] + right;
      ImplodeAppend(glue, left[1..], right);
    } else {
      assert (left + right)[1..] == right;
    }
  }

  /** Imploding the first `n` parts gives a prefix of imploding them all; when
      parts remain, that prefix is followed by the glue character. */
  lemma {:induction false} ImplodePrefix(glue: char, parts: seq<string>, n: nat)
    requires 1 <= n <= |parts|
    ensures Implode(glue, parts[..n]) <= Implode(glue, parts)
    ensures n < |parts| ==> Implode(glue, parts[..n]) + [glue] <= Implode(glue, parts)
    decreases n
  {
    if n == 1 {
      assert parts[..1] == [parts[0]];
    } else {
      assert parts[..n][1..] == parts[1..][..n - 1];
      ImplodePrefix(glue, parts[1..], n - 1);
    }
  }

  /** Imploding one more part appends the glue and that part. */
  lemma {:induction false} ImplodeSnoc(glue: char, parts: seq<string>, x: string)
    requires |parts| >= 1
    ensures Implode(glue, parts + [x]) == Implode(glue, parts) + [glue] + x
    decreases |parts|
  {
    if |parts| > 1 {
      assert (parts + [x])[1..] == parts[1..] + [x];
      ImplodeSnoc(glue, parts[1..], x);
    }
  }

  /** Imploding two or three parts, spelled out. */
  lemma ImplodeSmall(glue: char, x: string, y: string, z: string)
    ensures Implode(glue, [x, y]) == x + [glue] + y
    ensures Implode(glue, [x, y, z]) == x + [glue] + y + [glue] + z
  {
    assert [x, y][1..] == [y];
    assert [x, y, z][1..] == [y, z];
    assert [y, z][1..] == [z];
    assert Implode(glue, [y, z]) == y + [glue] + z;
    assert Implode(glue, [x, y, z]) == x + [glue] + (y + [glue] + z);
  }

  /** Replacing the glue of an imploded list re-glues the same parts. */
  lemma {:induction false} ReplaceGlue(parts: seq<string>, from: char, to: char)
    requires forall j :: 0 <= j < |parts| ==> from !in parts[j]
    ensures ReplaceChar(Implode(from, parts), from, to) == Implode(to, parts)
    decreases |parts|
  {
    if |parts| == 1 {
      assert ReplaceChar(parts[0], from, to) == parts[0];
    } else if |parts| > 1 {
      var tail := Implode(from, parts[1..]);
      ReplaceGlue(parts[1..], from, to);
      ReplaceConcat(parts[0] + [from], tail, from, to);
      ReplaceConcat(parts[0], [from], from, to);
      assert ReplaceChar(parts[0], from, to) == parts[0];
    }
  }

  /** `str_replace` works piece by piece over a concatenation. */
  lemma ReplaceConcat(a: string, b: string, from: char, to: char)
    ensures ReplaceChar(a + b, from, to) == ReplaceChar(a, from, to) + ReplaceChar(b, from, to)
  {
  }
}
