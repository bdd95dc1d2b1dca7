/**
  The scope check on access-token claims and the choice of the signing key
  for a token (auth/auth.go). A scope claim is a list of scopes separated by
  single spaces, split exactly as Go's `strings.Split(s, " ")` does, so empty
  entries appear wherever the claim has a leading, trailing or doubled space.
*/
module Auth {
  import opened Results

  const NoKeyError := "unable to find appropriate key"
  const CertHeader := "-----BEGIN CERTIFICATE-----\n"
  const CertFooter := "\n-----END CERTIFICATE-----"

  /**
    The claims of a token (`Claims`, auth/auth.go:14-18): the scope claim and
    whether the claims were loaded from a token. The standard claims are not
    read by the code modelled here.
  */
  datatype Claims = Claims(scope: string, populated: bool)

  /**
    The pieces of `s` between single spaces, as `strings.Split(s, " ")` returns
    them: never an empty list, and no piece holds a space.
  */
  function Split(s: string): (r: seq<string>)
    ensures |r| >= 1
    ensures forall i :: 0 <= i < |r| ==> ' ' !in r[i]
    decreases |s|
  {
    if s == [] then [""]
    else
      var rest := Split(s[1..]);
      if s[0] == ' ' then [""] + rest
      else [[s[0]] + rest[0]] + rest[1..]
  }

  /** The pieces put back together with a single space between neighbours (`strings.Join(ts, " ")`). */
  function Join(ts: seq<string>): string
    requires |ts| >= 1
    decreases |ts|
  {
    if |ts| == 1 then ts[0] else ts[0] + " " + Join(ts[1..])
  }

  /** Splitting loses nothing: joining the pieces gives back the string. */
  lemma {:induction false} JoinSplit(s: string)
    ensures Join(Split(s)) == s
    decreases |s|
  {
    if s != [] {
      var rest := Split(s[1..]);
      JoinSplit(s[1..]);
      if s[0] == ' ' {
        assert Split(s) == [""] + rest;
        assert Split(s)[1..] == rest;
        assert s == [' '] + s[1..];
      } else {
        var first := [s[0]] + rest[0];
        assert Split(s) == [first] + rest[1..];
        if |rest| == 1 {
          assert s == [s[0]] + rest[0];
        } else {
          assert Join(rest) == rest[0] + " " + Join(rest[1..]);
          assert Split(s)[1..] == rest[1..];
          assert s == [s[0]] + s[1..];
        }
      }
    }
  }

  /** Splitting a string that starts with a space opens an empty first piece. */
  lemma SplitSpace(s: string)
    ensures Split([' '] + s) == [""] + Split(s)
  {
    assert ([' '] + s)[1..] == s;
  }

  /** Splitting a string that starts with another character puts it in front of the first piece. */
  lemma SplitChar(c: char, s: string)
    requires c != ' '
    ensures Split([c] + s) == [[c] + Split(s)[0]] + Split(s)[1..]
  {
    assert ([c] + s)[1..] == s;
  }

  /** Moving the first character of the first piece out of the list. */
  lemma JoinFirstChar(ts: seq<string>)
    requires |ts| >= 1 && ts[0] != []
    ensures Join(ts) == [ts[0][0]] + Join(ts[0 := ts[0][1..]])
  {
    var shorter := ts[0 := ts[0][1..]];
    assert ts[0] == [ts[0][0]] + shorter[0];
    if |ts| > 1 {
      assert shorter[1..] == ts[1..];
    }
  }

  /** Joining space-free pieces and splitting again gives back the same pieces. */
  lemma {:induction false} SplitJoin(ts: seq<string>)
    requires |ts| >= 1
    requires forall i :: 0 <= i < |ts| ==> ' ' !in ts[i]
    ensures Split(Join(ts)) == ts
    decreases |ts|, |ts[0]|
  {
    if ts[0] == [] {
      if |ts| > 1 {
        assert Join(ts) == [' '] + Join(ts[1..]);
        SplitJoin(ts[1..]);
        SplitSpace(Join(ts[1..]));
      }
    } else {
      var c := ts[0][0];
      var shorter := ts[0 := ts[0][1..]];
      assert forall i :: 0 <= i < |shorter| ==> ' ' !in shorter[i] by {
        assert forall x :: x in ts[0][1..] ==> x in ts[0];
      }
      SplitJoin(shorter);
      JoinFirstChar(ts);
      assert c != ' ' by {
        assert c in ts[0];
      }
      SplitChar(c, Join(shorter));
      assert [c] + shorter[0] == ts[0];
    }
  }

  /** Whether some piece of `tokens` is exactly `scope` (the loop of auth/auth.go:40-44). */
  function AnyEquals(tokens: seq<string>, scope: string): (found: bool)
    ensures found <==> scope in tokens
  {
    if tokens == [] then false
    else tokens[0] == scope || AnyEquals(tokens[1..], scope)
  }

  /**
    Whether the claims grant `scope` (auth/auth.go:35-47): never before they
    are loaded; afterwards exactly when `scope` is one of the pieces of the
    scope claim, compared whole and case-sensitively.
  */
  function CheckScope(c: Claims, scope: string): (hasScope: bool)
    ensures !c.populated ==> !hasScope
    ensures c.populated ==> (hasScope <==> scope in Split(c.scope))
  {
    if !c.populated then false
    else AnyEquals(Split(c.scope), scope)
  }

  /** A scope that contains a space is never granted. */
  lemma ScopeWithSpaceNeverGranted(c: Claims, scope: string)
    requires ' ' in scope
    ensures !CheckScope(c, scope)
  {
  }

  /** A scope is granted by a claim that lists it, wherever it stands in the list. */
  lemma {:induction false} ListedScopeGranted(pre: seq<string>, scope: string, post: seq<string>)
    requires forall i :: 0 <= i < |pre| ==> ' ' !in pre[i]
    requires forall i :: 0 <= i < |post| ==> ' ' !in post[i]
    requires ' ' !in scope
    ensures CheckScope(Claims(Join(pre + [scope] + post), true), scope)
  {
    var ts := pre + [scope] + post;
    forall i | 0 <= i < |ts|
      ensures ' ' !in ts[i]
    {
      if i < |pre| {
        assert ts[i] == pre[i];
      } else if i > |pre| {
        assert ts[i] == post[i - |pre| - 1];
      }
    }
    SplitJoin(ts);
    assert ts[|pre|] == scope;
  }

  /**
    Where the pieces of `s` are empty: the first one exactly when `s` is empty
    or starts with a space, a later one exactly when some space is the last
    character or is followed by another space.
  */
  lemma {:induction false} EmptyPieces(s: string)
    ensures Split(s)[0] == "" <==> s == "" || s[0] == ' '
    ensures "" in Split(s)[1..] <==> exists i :: 0 <= i < |s| && s[i] == ' ' && (i + 1 == |s| || s[i + 1] == ' ')
    decreases |s|
  {
    if s != [] {
      var rest := Split(s[1..]);
      EmptyPieces(s[1..]);
      var t := s[1..];
      if s[0] == ' ' {
        assert Split(s)[1..] == rest;
        assert rest == [rest[0]] + rest[1..];
        if "" in rest {
          if rest[0] == "" {
            assert s[0] == ' ' && (0 + 1 == |s| || s[0 + 1] == ' ');
          } else {
            var j :| 0 <= j < |t| && t[j] == ' ' && (j + 1 == |t| || t[j + 1] == ' ');
            assert s[j + 1] == ' ' && (j + 2 == |s| || s[j + 2] == ' ');
          }
        } else {
          forall i | 0 <= i < |s| && s[i] == ' '
            ensures i + 1 < |s| && s[i + 1] != ' '
          {
            if i > 0 {
              assert t[i - 1] == ' ';
            }
          }
        }
      } else {
        assert Split(s)[1..] == rest[1..];
        assert Split(s)[0] == [s[0]] + rest[0];
        if exists i :: 0 <= i < |s| && s[i] == ' ' && (i + 1 == |s| || s[i + 1] == ' ') {
          var i :| 0 <= i < |s| && s[i] == ' ' && (i + 1 == |s| || s[i + 1] == ' ');
          assert t[i - 1] == ' ' && (i == |t| || t[i] == ' ');
        }
        if exists j :: 0 <= j < |t| && t[j] == ' ' && (j + 1 == |t| || t[j + 1] == ' ') {
          var j :| 0 <= j < |t| && t[j] == ' ' && (j + 1 == |t| || t[j + 1] == ' ');
          assert s[j + 1] == ' ' && (j + 2 == |s| || s[j + 2] == ' ');
        }
      }
    }
  }

  /**
    The empty scope is granted by loaded claims exactly when the scope claim
    is empty or has a leading, trailing or doubled space.
  */
  lemma EmptyScopeGranted(c: Claims)
    requires c.populated
    ensures CheckScope(c, "") <==>
      c.scope == "" || c.scope[0] == ' ' ||
      exists i :: 0 <= i < |c.scope| && c.scope[i] == ' ' && (i + 1 == |c.scope| || c.scope[i + 1] == ' ')
  {
    var pieces := Split(c.scope);
    EmptyPieces(c.scope);
    assert pieces == [pieces[0]] + pieces[1..];
  }

  /** A string without spaces is a single piece. */
  lemma {:induction false} SplitWithoutSpace(s: string)
    requires ' ' !in s
    ensures Split(s) == [s]
    decreases |s|
  {
    if s != [] {
      assert s == [s[0]] + s[1..];
      SplitWithoutSpace(s[1..]);
    }
  }

  /** Matching is by whole piece: a claim of "read:games" does not grant "read". */
  lemma WholePieceMatch()
    ensures !CheckScope(Claims("read:games", true), "read")
  {
    SplitWithoutSpace("read:games");
  }

  /**
    A key of the key set published by the authorization server (`jsonWebKeys`,
    auth/auth.go:57-64).
  */
  datatype JsonWebKey = JsonWebKey(kty: string, kid: string, use: string, n: string, e: string, x5c: seq<string>)

  /** A certificate wrapped in PEM armour, as auth/auth.go:120 builds it. */
  function PemCert(x: string): (pem: string)
    ensures |pem| == |CertHeader| + |x| + |CertFooter|
  {
    CertHeader + x + CertFooter
  }

  /** The certificate inside PEM armour. */
  function PemBody(pem: string): string
    requires |pem| >= |CertHeader| + |CertFooter|
  {
    pem[|CertHeader|..|pem| - |CertFooter|]
  }

  /** Unwrapping the armour gives back the certificate. */
  lemma PemRoundTrip(x: string)
    ensures PemBody(PemCert(x)) == x
    ensures PemCert(x)[..|CertHeader|] == CertHeader
    ensures PemCert(x)[|PemCert(x)| - |CertFooter|..] == CertFooter
  {
    var pem := PemCert(x);
    assert pem == CertHeader + (x + CertFooter);
    assert pem[|CertHeader|..] == x + CertFooter;
    assert pem[|CertHeader|..|pem| - |CertFooter|] == (x + CertFooter)[..|x|];
  }

  /** Whether the token's `kid` header is present, is a string, and equals `k.kid`. */
  predicate KidMatches(kid: Option<string>, k: JsonWebKey)
  {
    kid == Some(k.kid)
  }

  /**
    The key `FindPemCert` picks, the first that matches, carries a
    certificate: reading the first certificate of a key without one makes
    Go panic.
  */
  predicate FirstMatchHasCert(keys: seq<JsonWebKey>, kid: Option<string>)
  {
    forall i :: 0 <= i < |keys| && KidMatches(kid, keys[i]) && (forall j :: 0 <= j < i ==> !KidMatches(kid, keys[j])) ==>
      |keys[i].x5c| > 0
  }

  /**
    The PEM certificate of the first key whose `kid` matches the token's
    (the loop of auth/auth.go:118-126), or an error when no key matches. A
    token without a `kid` header, or with a non-string one, matches no key.
  */
  function FindPemCert(keys: seq<JsonWebKey>, kid: Option<string>): (r: Result<string>)
    requires FirstMatchHasCert(keys, kid)
    ensures r.Err? <==> forall i :: 0 <= i < |keys| ==> !KidMatches(kid, keys[i])
    ensures r.Err? ==> r.error == NoKeyError
    ensures r.Ok? ==>
      exists i :: 0 <= i < |keys| && KidMatches(kid, keys[i]) &&
        (forall j :: 0 <= j < i ==> !KidMatches(kid, keys[j])) && r.value == PemCert(keys[i].x5c[0])
  {
    if keys == [] then Err(NoKeyError)
    else if KidMatches(kid, keys[0]) then Ok(PemCert(keys[0].x5c[0]))
    else
      assert FirstMatchHasCert(keys[1..], kid) by {
        forall i | 0 <= i < |keys[1..]| && KidMatches(kid, keys[1..][i]) && (forall j :: 0 <= j < i ==> !KidMatches(kid, keys[1..][j]))
          ensures |keys[1..][i].x5c| > 0
        {
          assert keys[1..][i] == keys[i + 1];
          forall j | 0 <= j < i + 1
            ensures !KidMatches(kid, keys[j])
          {
            if j > 0 {
              assert keys[j] == keys[1..][j - 1];
            }
          }
        }
      }
      var r := FindPemCert(keys[1..], kid);
      if r.Ok? then
        var i :| 0 <= i < |keys[1..]| && KidMatches(kid, keys[1..][i]) &&
          (forall j :: 0 <= j < i ==> !KidMatches(kid, keys[1..][j])) && r.value == PemCert(keys[1..][i].x5c[0]);
        assert KidMatches(kid, keys[i + 1]) && r.value == PemCert(keys[i + 1].x5c[0]);
        assert forall j :: 0 <= j < i + 1 ==> !KidMatches(kid, keys[j]) by {
          forall j | 0 <= j < i + 1
            ensures !KidMatches(kid, keys[j])
          {
            if j > 0 {
              assert keys[j] == keys[1..][j - 1];
            }
          }
        }
        r
      else
        assert forall i :: 0 <= i < |keys| ==> !KidMatches(kid, keys[i]) by {
          forall i | 0 <= i < |keys|
            ensures !KidMatches(kid, keys[i])
          {
            if i > 0 {
              assert keys[i] == keys[1..][i - 1];
            }
          }
        }
        r
  }
}
