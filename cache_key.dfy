/** The cache key of one API call: the method, the resource path with `/`
    re-encoded as `+`, one tag for each of the three parameter collections
    and one for the response type, glued with `-`. */
module CacheKey {
  import opened PhpStrings

  datatype Option<+T> = None | Some(value: T)

  /** One entry of a PHP parameter array. */
  datatype Param = Param(name: string, value: string)
  type Params = seq<Param>

  /** `md5(serialize(params))`: an opaque digest of one parameter collection.
      Nothing is assumed about it beyond being a function of the collection. */
  type Digest = Params -> string

  /** The six arguments of `callApi`. A null response type is `None`. */
  datatype Request = Request(
    resourcePath: string,
    httpMethod: string,
    queryParams: Params,
    postData: Params,
    headerParams: Params,
    responseType: Option<string>)

  /** PHP's `empty()` on the response type: null, "" and "0" are all empty. */
  predicate EmptyResponseType(rt: Option<string>): (empty: bool)
    ensures empty ==> rt.None? || |rt.value| <= 1
    ensures rt.Some? && |rt.value| == 1 ==> (empty <==> rt.value[0] == '0')
  {
    rt.None? || rt.value == "" || rt.value == "0"
  }

  /** The resource path as it appears in keys: every `/` becomes `+`, so that the
      backend's search does not read the key as a regular expression. */
  function EncodePath(path: string): (r: string)
    ensures |r| == |path| && '/' !in r
    ensures forall i :: 0 <= i < |path| ==> r[i] == (if path[i] == '/' then '+' else path[i])
  {
    ReplaceChar(path, '/', '+')
  }

  /** `QP`, `PD` or `HP`, followed by `:` and the digest when the collection is not empty. */
  function ParamLabel(tag: string, params: Params, digest: Digest): (l: string)
    ensures tag <= l
    ensures l == tag <==> |params| == 0
    ensures |params| > 0 ==> l[|tag|] == ':' && l[|tag| + 1..] == digest(params)
  {
    if |params| == 0 then tag else tag + ":" + digest(params)
  }

  /** `RT`, followed by `:` and the type when the type is not PHP-empty. */
  function ResponseTypeLabel(rt: Option<string>): (l: string)
    ensures "RT" <= l
    ensures l == "RT" <==> EmptyResponseType(rt)
    ensures !EmptyResponseType(rt) ==> l[2] == ':' && l[3..] == rt.value
  {
    if EmptyResponseType(rt) then "RT" else "RT:" + rt.value
  }

  /** The six parts the key is imploded from, in their fixed order. */
  function KeyParts(req: Request, digest: Digest): seq<string>
  {
    [ req.httpMethod,
      EncodePath(req.resourcePath),
      ParamLabel("QP", req.queryParams, digest),
      ParamLabel("PD", req.postData, digest),
      ParamLabel("HP", req.headerParams, digest),
      ResponseTypeLabel(req.responseType) ]
  }

  /** The cache key: `implode('-', parts)`, which spells out as the six parts in
      order with a dash between neighbours; it begins with the method and the
      encoded path. */
  function Key(req: Request, digest: Digest): (k: string)
    ensures k == req.httpMethod + "-" + EncodePath(req.resourcePath)
                 + "-" + ParamLabel("QP", req.queryParams, digest)
                 + "-" + ParamLabel("PD", req.postData, digest)
                 + "-" + ParamLabel("HP", req.headerParams, digest)
                 + "-" + ResponseTypeLabel(req.responseType)
    ensures req.httpMethod + "-" + EncodePath(req.resourcePath) + "-" <= k
  {
    var parts := KeyParts(req, digest);
    ImplodeSnoc('-', parts[..1], parts[1]);
    ImplodeSnoc('-', parts[..2], parts[2]);
    ImplodeSnoc('-', parts[..3], parts[3]);
    ImplodeSnoc('-', parts[..4], parts[4]);
    ImplodeSnoc('-', parts[..5], parts[5]);
    assert parts[..1] + [parts[1]] == parts[..2];
    assert parts[..2] + [parts[2]] == parts[..3];
    assert parts[..3] + [parts[3]] == parts[..4];
    assert parts[..4] + [parts[4]] == parts[..5];
    assert parts[..5] + [parts[5]] == parts;
    Implode('-', parts)
  }

  /** The parts of a request around the path that may not contain a dash for
      the path to be read back out of its key: the method, the digests and the
      response type. */
  predicate DashFreeExceptPath(req: Request, digest: Digest)
  {
    && '-' !in req.httpMethod
    && (|req.queryParams| > 0 ==> '-' !in digest(req.queryParams))
    && (|req.postData| > 0 ==> '-' !in digest(req.postData))
    && (|req.headerParams| > 0 ==> '-' !in digest(req.headerParams))
    && (req.responseType.Some? ==> '-' !in req.responseType.value)
  }

  /** The parts of a request that may not contain a dash for its key to split
      back into its six parts. */
  predicate DashFree(req: Request, digest: Digest)
  {
    DashFreeExceptPath(req, digest) && '-' !in req.resourcePath
  }

  /** What a key records of a request: its method, its encoded path, for each
      parameter collection whether it is empty and otherwise its digest, and the
      response type unless PHP-empty. */
  predicate SameIdentity(r1: Request, r2: Request, digest: Digest)
  {
    && r1.httpMethod == r2.httpMethod
    && EncodePath(r1.resourcePath) == EncodePath(r2.resourcePath)
    && SameParams(r1.queryParams, r2.queryParams, digest)
    && SameParams(r1.postData, r2.postData, digest)
    && SameParams(r1.headerParams, r2.headerParams, digest)
    && (EmptyResponseType(r1.responseType) <==> EmptyResponseType(r2.responseType))
    && (!EmptyResponseType(r1.responseType) ==> r1.responseType.value == r2.responseType.value)
  }

  predicate SameParams(p1: Params, p2: Params, digest: Digest)
  {
    (|p1| == 0 <==> |p2| == 0) && (|p1| > 0 ==> digest(p1) == digest(p2))
  }

  /** When no part carries a dash, exploding the key on `-` gives back its six parts. */
  lemma KeySplitsIntoParts(req: Request, digest: Digest)
    requires DashFree(req, digest)
    ensures Explode('-', Key(req, digest)) == KeyParts(req, digest)
  {
    var parts := KeyParts(req, digest);
    assert '-' !in parts[1];
    assert '-' !in "QP" && '-' !in "PD" && '-' !in "HP" && '-' !in "RT";
    LabelDashFree("QP", req.queryParams, digest);
    LabelDashFree("PD", req.postData, digest);
    LabelDashFree("HP", req.headerParams, digest);
    assert forall j :: 0 <= j < |parts| ==> '-' !in parts[j];
    ExplodeImplode('-', parts);
  }

  /** The four labels of a key, in order. */
  function Labels(req: Request, digest: Digest): seq<string>
  {
    KeyParts(req, digest)[2..]
  }

  /** When the method and the labels carry no dash, exploding the key on `-`
      gives the method, then the pieces of the encoded path, then the four labels,
      whatever dashes the path holds. */
  lemma KeyExplodes(req: Request, digest: Digest)
    requires DashFreeExceptPath(req, digest)
    ensures Explode('-', Key(req, digest)) ==
            [req.httpMethod] + Explode('-', EncodePath(req.resourcePath)) + Labels(req, digest)
  {
    var parts := KeyParts(req, digest);
    var m, enc, labels := parts[0], parts[1], parts[2..];
    assert parts == [m, enc] + labels;
    assert '-' !in "QP" && '-' !in "PD" && '-' !in "HP" && '-' !in "RT";
    LabelDashFree("QP", req.queryParams, digest);
    LabelDashFree("PD", req.postData, digest);
    LabelDashFree("HP", req.headerParams, digest);
    assert forall j :: 0 <= j < |labels| ==> '-' !in labels[j];
    var tail := Implode('-', labels);
    ExplodeImplode('-', labels);
    ImplodeAppend('-', [m, enc], labels);
    ImplodeSmall('-', m, enc, "");
    assert Key(req, digest) == m + "-" + enc + "-" + tail;
    ExplodeAppend('-', m + "-" + enc, tail);
    ExplodeAppend('-', m, enc);
    assert Explode('-', m) == [m];
  }

  lemma LabelDashFree(tag: string, params: Params, digest: Digest)
    requires '-' !in tag && tag != []
    requires |params| > 0 ==> '-' !in digest(params)
    ensures '-' !in ParamLabel(tag, params, digest)
  {
    if |params| > 0 {
      var r := ParamLabel(tag, params, digest);
      assert r == tag + ":" + digest(params);
    }
  }

  /** Two labels agree exactly when their collections agree on emptiness and digest. */
  lemma ParamLabelsAgree(tag: string, p1: Params, p2: Params, digest: Digest)
    ensures ParamLabel(tag, p1, digest) == ParamLabel(tag, p2, digest) <==> SameParams(p1, p2, digest)
  {
    var l1, l2 := ParamLabel(tag, p1, digest), ParamLabel(tag, p2, digest);
    if l1 == l2 && |p1| > 0 && |p2| > 0 {
      assert digest(p1) == l1[|tag| + 1..];
    }
  }

  /** Two response-type labels agree exactly when the types agree up to PHP emptiness. */
  lemma ResponseTypeLabelsAgree(rt1: Option<string>, rt2: Option<string>)
    ensures ResponseTypeLabel(rt1) == ResponseTypeLabel(rt2) <==>
            ((EmptyResponseType(rt1) <==> EmptyResponseType(rt2)) &&
             (!EmptyResponseType(rt1) ==> rt1.value == rt2.value))
  {
    var l1, l2 := ResponseTypeLabel(rt1), ResponseTypeLabel(rt2);
    if l1 == l2 && !EmptyResponseType(rt1) && !EmptyResponseType(rt2) {
      assert rt1.value == l1[3..];
    }
  }

  /** When method, digests and response type carry no dash, two calls share a
      cache key exactly when they agree on everything the key records (digest
      collisions aside, this is injectivity). A dash in the path is harmless. */
  lemma KeyIdentifiesRequest(r1: Request, r2: Request, digest: Digest)
    requires DashFreeExceptPath(r1, digest) && DashFreeExceptPath(r2, digest)
    ensures Key(r1, digest) == Key(r2, digest) <==> SameIdentity(r1, r2, digest)
  {
    ParamLabelsAgree("QP", r1.queryParams, r2.queryParams, digest);
    ParamLabelsAgree("PD", r1.postData, r2.postData, digest);
    ParamLabelsAgree("HP", r1.headerParams, r2.headerParams, digest);
    ResponseTypeLabelsAgree(r1.responseType, r2.responseType);
    if Key(r1, digest) == Key(r2, digest) {
      KeyExplodes(r1, digest);
      KeyExplodes(r2, digest);
      var x1, x2 := Explode('-', EncodePath(r1.resourcePath)), Explode('-', EncodePath(r2.resourcePath));
      var l1, l2 := Labels(r1, digest), Labels(r2, digest);
      SplitThree(r1.httpMethod, x1, l1, r2.httpMethod, x2, l2);
      assert KeyParts(r1, digest) == KeyParts(r2, digest);
    }
  }

  /** Two lists made of one head, a middle and a four-element tail are equal only
      piece by piece. */
  lemma SplitThree(m1: string, x1: seq<string>, l1: seq<string>, m2: string, x2: seq<string>, l2: seq<string>)
    requires |l1| == 4 && |l2| == 4
    requires [m1] + x1 + l1 == [m2] + x2 + l2
    ensures m1 == m2 && x1 == x2 && l1 == l2
  {
    var e := [m1] + x1 + l1;
    assert |x1| == |x2|;
    assert x1 == e[1..|e| - 4] && l1 == e[|e| - 4..];
    assert m1 == e[0];
  }

  /** `/` and `+` in a resource path are not told apart: "a/b" and "a+b" share keys. */
  lemma SlashAndPlusShareKey(a: string, b: string, req: Request, digest: Digest)
    requires req.resourcePath == a + "/" + b
    ensures Key(req, digest) == Key(req.(resourcePath := a + "+" + b), digest)
  {
    var p, q := a + "/" + b, a + "+" + b;
    assert EncodePath(p) == EncodePath(q) by {
      assert forall i :: 0 <= i < |p| ==> (p[i] == '/' || p[i] == '+' <==> q[i] == '/' || q[i] == '+');
      assert forall i :: 0 <= i < |p| && p[i] != '/' && p[i] != '+' ==> p[i] == q[i];
    }
  }

  /** A path without `/` is its own encoding. */
  lemma EncodeSlashFree(path: string)
    requires '/' !in path
    ensures EncodePath(path) == path
  {
  }

  /** A dash inside a part lets two different calls collide: a path ending in
      "-QP-PD-HP-RT:" + t and the same path with response type t + "-QP-PD-HP-RT". */
  lemma DashInPathCollides(path: string, t: string, digest: Digest)
    requires '/' !in path && '/' !in t
    ensures var r1 := Request(path + "-QP-PD-HP-RT:" + t, "GET", [], [], [], None);
            var r2 := Request(path, "GET", [], [], [], Some(t + "-QP-PD-HP-RT"));
            r1 != r2 && Key(r1, digest) == Key(r2, digest)
  {
    var long := path + "-QP-PD-HP-RT:" + t;
    var rt := t + "-QP-PD-HP-RT";
    var r1 := Request(long, "GET", [], [], [], None);
    var r2 := Request(path, "GET", [], [], [], Some(rt));
    assert '/' !in long;
    EncodeSlashFree(long);
    EncodeSlashFree(path);
    assert |rt| > 1;
    assert Key(r1, digest) == "GET" + "-" + long + "-" + "QP" + "-" + "PD" + "-" + "HP" + "-" + "RT";
    assert Key(r2, digest) == "GET" + "-" + path + "-" + "QP" + "-" + "PD" + "-" + "HP" + "-" + ("RT:" + rt);
    DashInPathStrings(path, t);
    assert |long| > |path|;
  }

  /** The string identity behind DashInPathCollides. */
  lemma DashInPathStrings(path: string, t: string)
    ensures "GET" + "-" + (path + "-QP-PD-HP-RT:" + t) + "-" + "QP" + "-" + "PD" + "-" + "HP" + "-" + "RT"
         == "GET" + "-" + path + "-" + "QP" + "-" + "PD" + "-" + "HP" + "-" + ("RT:" + (t + "-QP-PD-HP-RT"))
  {
    var a, b := "-QP-PD-HP-RT:", "-QP-PD-HP-RT";
    assert "-" + "QP" + "-" + "PD" + "-" + "HP" + "-" + "RT" == b;
    assert "-" + "QP" + "-" + "PD" + "-" + "HP" + "-" + "RT:" == a;
    calc {
      "GET" + "-" + (path + a + t) + "-" + "QP" + "-" + "PD" + "-" + "HP" + "-" + "RT";
      "GET-" + path + a + t + b;
      "GET" + "-" + path + "-" + "QP" + "-" + "PD" + "-" + "HP" + "-" + ("RT:" + (t + b));
    }
  }
}
