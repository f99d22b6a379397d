/** Which cached reads a non-GET call removes. The write's encoded path is
    exploded on `+`; the search key `"GET-" + implode('+', segments)` is tried for
    the full list and, after dropping the last segment, again for as long as more
    than two segments remain. Every stored key that begins with a tried search
    key is deleted. */
module Invalidation {
  import opened PhpStrings
  import opened CacheKey

  /** The loop stops once no more than this many segments remain. */
  const Floor := 2

  /** The segments the loop starts from: the `+`-encoded path exploded on `+`.
      A leading `/` gives an empty first segment, which counts toward the floor. */
  function Segments(resourcePath: string): (segments: seq<string>)
    ensures |segments| >= 1 && Implode('+', segments) == EncodePath(resourcePath)
  {
    Explode('+', EncodePath(resourcePath))
  }

  /** The search key for a list of segments: it begins every key of a GET on
      the path those segments encode. */
  function SearchKey(segments: seq<string>): (searchKey: string)
    ensures "GET-" <= searchKey
    ensures forall read: Request, digest: Digest {:trigger Key(read, digest)} ::
              read.httpMethod == "GET" && EncodePath(read.resourcePath) == Implode('+', segments) ==>
              searchKey <= Key(read, digest)
  {
    var searchKey := "GET-" + Implode('+', segments);
    assert forall read: Request, digest: Digest ::
             read.httpMethod == "GET" && EncodePath(read.resourcePath) == Implode('+', segments) ==>
             searchKey <= Key(read, digest) by {
      forall read: Request, digest: Digest |
        read.httpMethod == "GET" && EncodePath(read.resourcePath) == Implode('+', segments)
        ensures searchKey <= Key(read, digest)
      {
        ReadKeyStart(read, digest);
      }
    }
    searchKey
  }

  /** The loop searches with the first `len` of `n` segments: always the full
      list (the body runs before the test), then every shorter list above the floor. */
  predicate Searched(n: int, len: int)
  {
    1 <= len <= n && (len == n || len > Floor)
  }

  /** The search keys in the order the loop tries them. */
  function SearchKeys(segments: seq<string>): (keys: seq<string>)
    requires |segments| >= 1
    ensures |keys| >= 1 && keys[0] == SearchKey(segments)
    ensures |keys| == if |segments| > Floor + 1 then |segments| - Floor else 1
    decreases |segments|
  {
    var rest := segments[..|segments| - 1];
    [SearchKey(segments)] + (if |rest| > Floor then SearchKeys(rest) else [])
  }

  /** One turn of the loop: the keys tried so far plus the current search key
      are followed by the searches of one segment fewer while more than the floor
      remain, and are all of them otherwise. */
  lemma SearchKeysAdvance(tried: seq<string>, segments: seq<string>, all: seq<string>)
    requires |segments| >= 1 && |all| >= 1 && tried + SearchKeys(segments) == SearchKeys(all)
    ensures var rest := segments[..|segments| - 1];
            |rest| > Floor ==> tried + [SearchKey(segments)] + SearchKeys(rest) == SearchKeys(all)
    ensures |segments| - 1 <= Floor ==> tried + [SearchKey(segments)] == SearchKeys(all)
  {
    var rest := segments[..|segments| - 1];
    var here := [SearchKey(segments)];
    if |rest| > Floor {
      assert SearchKeys(segments) == here + SearchKeys(rest);
      assert tried + here + SearchKeys(rest) == tried + (here + SearchKeys(rest));
    } else {
      assert SearchKeys(segments) == here;
    }
  }

  /** Some search key is a prefix of `key`. */
  predicate MatchesAny(key: string, searchKeys: seq<string>)
  {
    exists i :: 0 <= i < |searchKeys| && searchKeys[i] <= key
  }

  /** The stored keys that some search key matches. */
  function Doomed(keys: set<string>, searchKeys: seq<string>): (doomed: set<string>)
    ensures doomed <= keys
    ensures forall k :: k in keys && MatchesAny(k, searchKeys) ==> k in doomed
  {
    set k | k in keys && MatchesAny(k, searchKeys)
  }

  /** The stored keys a non-GET call on `resourcePath` deletes. */
  function Invalidated(keys: set<string>, resourcePath: string): set<string>
  {
    Doomed(keys, SearchKeys(Segments(resourcePath)))
  }

  /** The loop tries exactly the prefixes of the segment list whose length it reaches. */
  lemma SearchKeysExactly(segments: seq<string>, key: string)
    requires |segments| >= 1
    ensures key in SearchKeys(segments) <==>
            exists len :: Searched(|segments|, len) && key == SearchKey(segments[..len])
  {
    var n := |segments|;
    var keys := SearchKeys(segments);
    if key in keys {
      var i :| 0 <= i < |keys| && keys[i] == key;
      SearchKeysAt(segments, i);
      assert Searched(n, n - i);
    }
    if exists len :: Searched(n, len) && key == SearchKey(segments[..len]) {
      var len :| Searched(n, len) && key == SearchKey(segments[..len]);
      var i := n - len;
      assert i < |keys| by {
        assert |keys| == if n > Floor + 1 then n - Floor else 1;
      }
      SearchKeysAt(segments, i);
      assert segments[..|segments| - i] == segments[..len];
      assert keys[i] == key;
    }
  }

  /** A stored key is deleted exactly when it begins with the search key of some
      prefix of the segments that the loop reaches. */
  lemma InvalidatedExactly(keys: set<string>, resourcePath: string, k: string)
    ensures var segments := Segments(resourcePath);
            k in Invalidated(keys, resourcePath) <==>
            k in keys && exists len :: Searched(|segments|, len) && SearchKey(segments[..len]) <= k
  {
    var segments := Segments(resourcePath);
    var searchKeys := SearchKeys(segments);
    if k in Invalidated(keys, resourcePath) {
      var i :| 0 <= i < |searchKeys| && searchKeys[i] <= k;
      SearchKeysExactly(segments, searchKeys[i]);
    }
    if k in keys && exists len :: Searched(|segments|, len) && SearchKey(segments[..len]) <= k {
      var len :| Searched(|segments|, len) && SearchKey(segments[..len]) <= k;
      SearchKeysExactly(segments, SearchKey(segments[..len]));
      var i :| 0 <= i < |searchKeys| && searchKeys[i] == SearchKey(segments[..len]);
      assert MatchesAny(k, searchKeys);
    }
  }

  /** Every search key is a prefix of `"GET-"` + the encoded path of the write:
      the loop only ever searches the path itself and its ancestors, and each
      search key extends the next one (most specific first). */
  lemma SearchKeysWalkUp(resourcePath: string, i: nat)
    requires i < |SearchKeys(Segments(resourcePath))|
    ensures SearchKeys(Segments(resourcePath))[i] <= "GET-" + EncodePath(resourcePath)
    ensures i + 1 < |SearchKeys(Segments(resourcePath))| ==>
            SearchKeys(Segments(resourcePath))[i + 1] < SearchKeys(Segments(resourcePath))[i]
  {
    var segments := Segments(resourcePath);
    SearchKeyWithin(segments, i);
    if i + 1 < |SearchKeys(segments)| {
      SearchKeysShrink(segments, i);
    }
  }

  /** Search key `i` is a prefix of the first one. */
  lemma SearchKeyWithin(segments: seq<string>, i: nat)
    requires |segments| >= 1 && i < |SearchKeys(segments)|
    ensures SearchKeys(segments)[i] <= SearchKey(segments)
  {
    SearchKeysAt(segments, i);
    SearchKeyPrefix(segments, |segments| - i);
  }

  /** Search key `i + 1` is a proper prefix of search key `i`. */
  lemma SearchKeysShrink(segments: seq<string>, i: nat)
    requires |segments| >= 1 && i + 1 < |SearchKeys(segments)|
    ensures SearchKeys(segments)[i + 1] < SearchKeys(segments)[i]
  {
    var n := |segments|;
    SearchKeysAt(segments, i);
    SearchKeysAt(segments, i + 1);
    var shorter := segments[..n - i];
    assert shorter[..n - i - 1] == segments[..n - i - 1];
    SearchKeyPrefix(shorter, n - i - 1);
  }

  /** The search key of the first `m` segments is a prefix of the full search key,
      and a proper one when segments were dropped. */
  lemma SearchKeyPrefix(segments: seq<string>, m: nat)
    requires 1 <= m <= |segments|
    ensures SearchKey(segments[..m]) <= SearchKey(segments)
    ensures m < |segments| ==> SearchKey(segments[..m]) < SearchKey(segments)
  {
    var short, full := Implode('+', segments[..m]), Implode('+', segments);
    ImplodePrefix('+', segments, m);
    assert short <= full;
    assert ("GET-" + short)[..|"GET-" + short|] == "GET-" + full[..|short|];
    if m < |segments| {
      assert short + ['+'] <= full;
      assert |short| < |full|;
    }
  }

  /** The `i`-th search key is built from the first `n - i` segments. */
  lemma {:induction false} SearchKeysAt(segments: seq<string>, i: nat)
    requires |segments| >= 1 && i < |SearchKeys(segments)|
    ensures i < |segments| && SearchKeys(segments)[i] == SearchKey(segments[..|segments| - i])
    decreases |segments|
  {
    var n := |segments|;
    if i == 0 {
      assert segments[..n] == segments;
    } else {
      var rest := segments[..n - 1];
      assert SearchKeys(segments)[i] == SearchKeys(rest)[i - 1];
      SearchKeysAt(rest, i - 1);
      assert rest[..|rest| - (i - 1)] == segments[..n - i];
    }
  }

  /** One more search: removing its matches from what the earlier searches left
      is removing what all of them together match. */
  lemma RemoveNextMatches<V>(m0: map<string, V>, keys: set<string>, tried: seq<string>,
                             searchKey: string, matches: set<string>)
    requires m0.Keys == keys
    requires forall k :: k in matches <==> k in keys && k !in Doomed(keys, tried) && searchKey <= k
    ensures m0 - Doomed(keys, tried) - matches == m0 - Doomed(keys, tried + [searchKey])
  {
    var next := tried + [searchKey];
    forall k | k in keys
      ensures k in Doomed(keys, next) <==> k in Doomed(keys, tried) || k in matches
    {
      if MatchesAny(k, tried) {
        var i :| 0 <= i < |tried| && tried[i] <= k;
        assert next[i] == tried[i];
      }
      if MatchesAny(k, next) {
        var i :| 0 <= i < |next| && next[i] <= k;
        if i < |tried| { assert tried[i] <= k; }
      }
      if searchKey <= k { assert next[|tried|] == searchKey; }
    }
  }

  /** Stale reads of the written resource itself are removed, together with those
      of every path its encoding is a prefix of (its descendants, and siblings
      whose name merely starts with the same characters). */
  lemma ReadsBelowWriteInvalidated(keys: set<string>, resourcePath: string, read: Request, digest: Digest)
    requires read.httpMethod == "GET"
    requires EncodePath(resourcePath) <= EncodePath(read.resourcePath)
    requires Key(read, digest) in keys
    ensures Key(read, digest) in Invalidated(keys, resourcePath)
  {
    var segments := Segments(resourcePath);
    var k := Key(read, digest);
    assert SearchKey(segments) <= k by {
      ReadKeyStart(read, digest);
      var written, readPath := EncodePath(resourcePath), EncodePath(read.resourcePath);
      assert SearchKey(segments) == "GET-" + written;
      assert "GET-" + written <= "GET-" + readPath;
    }
    assert segments[..|segments|] == segments;
    assert Searched(|segments|, |segments|);
    InvalidatedExactly(keys, resourcePath, k);
  }

  /** A write on the path built from `segments` removes the cached reads of each
      ancestor that the loop reaches. */
  lemma AncestorReadInvalidated(keys: set<string>, segments: seq<string>, len: nat, read: Request, digest: Digest)
    requires |segments| >= 1
    requires forall j :: 0 <= j < |segments| ==> '/' !in segments[j] && '+' !in segments[j]
    requires Searched(|segments|, len)
    requires read.httpMethod == "GET" && read.resourcePath == Implode('/', segments[..len])
    requires Key(read, digest) in keys
    ensures Key(read, digest) in Invalidated(keys, Implode('/', segments))
  {
    var path := Implode('/', segments);
    var k := Key(read, digest);
    PathSegments(segments);
    PathSegments(segments[..len]);
    ReadKeyStart(read, digest);
    assert SearchKey(segments[..len]) <= k;
    InvalidatedExactly(keys, path, k);
  }

  /** A path joined from `/`- and `+`-free segments explodes back into them. */
  lemma PathSegments(segments: seq<string>)
    requires |segments| >= 1
    requires forall j :: 0 <= j < |segments| ==> '/' !in segments[j] && '+' !in segments[j]
    ensures EncodePath(Implode('/', segments)) == Implode('+', segments)
    ensures Segments(Implode('/', segments)) == segments
  {
    ReplaceGlue(segments, '/', '+');
    ExplodeImplode('+', segments);
  }

  /** A GET key begins with `GET-` and the encoded path. */
  lemma ReadKeyStart(read: Request, digest: Digest)
    requires read.httpMethod == "GET"
    ensures "GET-" + EncodePath(read.resourcePath) <= Key(read, digest)
  {
    assert "GET" + "-" + EncodePath(read.resourcePath) == "GET-" + EncodePath(read.resourcePath);
  }

  /** The floor: a write on `/a/b` searches only `GET-+a+b`, so the cached reads of
      its parent `/a` stay. */
  lemma ParentOfShallowWriteKept(keys: set<string>, a: string, b: string, read: Request, digest: Digest)
    requires '/' !in a && '+' !in a && '/' !in b && '+' !in b
    requires read.httpMethod == "GET" && read.resourcePath == "/" + a
    ensures Key(read, digest) !in Invalidated(keys, "/" + a + "/" + b)
  {
    var path := "/" + a + "/" + b;
    var k := Key(read, digest);
    TwoLevelPath(a, b);
    TopLevelReadKey(a, read, digest);
    OnlyOwnLevelSearched(keys, path, k, |a| + 5);
  }

  /** `/a/b` explodes into `["", a, b]`; its search key has `+` right after `a`. */
  lemma TwoLevelPath(a: string, b: string)
    requires '/' !in a && '+' !in a && '/' !in b && '+' !in b
    ensures Segments("/" + a + "/" + b) == ["", a, b]
    ensures var searchKey := SearchKey(["", a, b]);
            |searchKey| > |a| + 5 && searchKey[|a| + 5] == '+'
  {
    var segments := ["", a, b];
    assert Implode('/', segments) == "/" + a + "/" + b by {
      ImplodeSmall('/', "", a, b);
    }
    PathSegments(segments);
    var joined := Implode('+', segments);
    assert joined == "+" + a + "+" + b by {
      ImplodeSmall('+', "", a, b);
    }
    assert joined[|a| + 1] == '+';
  }

  /** The key of a read on `/a` has `-` right after `a`. */
  lemma TopLevelReadKey(a: string, read: Request, digest: Digest)
    requires '/' !in a && '+' !in a
    requires read.httpMethod == "GET" && read.resourcePath == "/" + a
    ensures var k := Key(read, digest);
            |k| > |a| + 5 && k[|a| + 5] == '-'
  {
    var k := Key(read, digest);
    ImplodeSmall('/', "", a, "");
    ImplodeSmall('+', "", a, "");
    PathSegments(["", a]);
    assert EncodePath(read.resourcePath) == "+" + a;
    assert "GET" + "-" + ("+" + a) + "-" <= k;
  }

  /** When the write has at most three segments only its own search key is tried,
      so a key that differs from it at some position survives. */
  lemma OnlyOwnLevelSearched(keys: set<string>, path: string, k: string, i: nat)
    requires |Segments(path)| <= Floor + 1
    requires i < |SearchKey(Segments(path))| && i < |k| && SearchKey(Segments(path))[i] != k[i]
    ensures k !in Invalidated(keys, path)
  {
    var searchKey := SearchKey(Segments(path));
    assert SearchKeys(Segments(path)) == [searchKey];
    assert !(searchKey <= k);
  }

  /** A write with an empty resource path searches `GET-` and so removes every cached read. */
  lemma EmptyPathInvalidatesAllReads(keys: set<string>, k: string)
    requires k in keys && "GET-" <= k
    ensures k in Invalidated(keys, "")
  {
    assert Segments("") == [""];
    assert SearchKey([""]) == "GET-";
    assert SearchKeys([""])[0] == "GET-";
  }
}
