/** The text around a session: how the handler reads the id out of a Set-Cookie header
    (internal/ingress/handler/http/handler.go) and how internal/redis/redis.go turns an
    id into a key. */
module RedisKeys {
  import opened Go

  // ---- Keys ------------------------------------------------------------------

  /** createNamespaced. */
  function Namespace(prefix: string): string { prefix + ":" }

  /** createNamespacedKey: text that already holds the namespace is left alone. */
  function NamespacedKey(prefix: string, key: string): string {
    if Contains(key, Namespace(prefix)) then key else Namespace(prefix) + key
  }

  /** The keys KEYS returns for the namespace pattern, with a prefix free of glob
      metacharacters. */
  predicate InNamespace(prefix: string, key: string) { HasPrefix(key, Namespace(prefix)) }

  lemma PrefixContains(prefix: string, key: string)
    requires InNamespace(prefix, key)
    ensures Contains(key, Namespace(prefix))
  {
    assert OccursAt(key, Namespace(prefix), 0);
  }

  /** Re-namespacing a scanned key is the identity. */
  lemma RenamespacingIsIdentity(prefix: string, key: string)
    requires InNamespace(prefix, key)
    ensures NamespacedKey(prefix, key) == key
  {
    PrefixContains(prefix, key);
  }

  /** Namespacing twice is namespacing once. */
  lemma NamespacedKeyIdempotent(prefix: string, id: string)
    ensures NamespacedKey(prefix, NamespacedKey(prefix, id)) == NamespacedKey(prefix, id)
  {
    if !Contains(id, Namespace(prefix)) {
      assert OccursAt(Namespace(prefix) + id, Namespace(prefix), 0);
    }
  }

  /** Two ids share a key exactly when they are the same, or one is the other with the
      namespace written in front. */
  lemma SharedKeyIff(prefix: string, a: string, b: string)
    ensures NamespacedKey(prefix, a) == NamespacedKey(prefix, b) <==>
              || a == b
              || (Free(a, Namespace(prefix)) && b == Namespace(prefix) + a)
              || (Free(b, Namespace(prefix)) && a == Namespace(prefix) + b)
  {
    var ns := Namespace(prefix);
    assert OccursAt(ns + a, ns, 0) && OccursAt(ns + b, ns, 0);
    assert a == (ns + a)[|ns|..] && b == (ns + b)[|ns|..];
  }

  /** Ids free of the namespace keep to their own keys, inside the namespace. */
  lemma FreeIdsHaveOwnKeys(prefix: string, a: string, b: string)
    requires Free(a, Namespace(prefix)) && Free(b, Namespace(prefix)) && a != b
    ensures NamespacedKey(prefix, a) != NamespacedKey(prefix, b)
    ensures InNamespace(prefix, NamespacedKey(prefix, a))
  {
    SharedKeyIff(prefix, a, b);
    assert OccursAt(Namespace(prefix) + a, Namespace(prefix), 0);
  }

  // ---- Set-Cookie ------------------------------------------------------------

  const SESSION := "JSESSIONID="

  /** The id the handler extracts from a Set-Cookie header; Nil is its error answer. */
  function SessionId(header: string): Ptr<string> {
    if header == "" || !Contains(header, SESSION) then Nil
    else
      var after := Split(header, SESSION);
      if |after| < 2 then Nil else Ref(Split(after[1], ";")[0])
  }

  /** There is no id exactly when the header has no session marker anywhere. */
  lemma NoIdIffNoMarker(header: string)
    ensures SessionId(header).Nil? <==> Free(header, "JSESSIONID=")
  {
    if Contains(header, SESSION) {
      assert header != "" by {
        var i: nat :| OccursAt(header, SESSION, i);
      }
    }
  }

  /** An occurrence that crosses the seam of `a + b` has a character of `sep` at the seam. */
  lemma NoOccurrenceAcross(a: string, b: string, sep: string, i: nat)
    requires i <= |a| < i + |sep| && OccursAt(a + b, sep, i)
    ensures b != [] && b[0] == sep[|a| - i]
  {
    assert (a + b)[|a|] == (a + b)[i..i + |sep|][|a| - i];
  }

  lemma OccursInLeft(a: string, b: string, sep: string, i: nat)
    requires i + |sep| <= |a| && OccursAt(a + b, sep, i)
    ensures OccursAt(a, sep, i)
  {
    assert (a + b)[i..i + |sep|] == a[i..i + |sep|];
  }

  /** The first occurrence in `a + sep + b` is the one written there, when `a` is free of
      `sep` and the first character of `sep` occurs in it only once. */
  lemma FirstOccurrence(a: string, sep: string, b: string)
    requires sep != [] && Free(a, sep) && forall k :: 0 < k < |sep| ==> sep[k] != sep[0]
    ensures IndexFrom(a + sep + b, sep, 0) == |a|
  {
    var s := a + (sep + b);
    assert s == a + sep + b;
    assert OccursAt(s, sep, |a|) by {
      assert s[|a|..|a| + |sep|] == sep;
    }
    forall i: nat | i < |a| ensures !OccursAt(s, sep, i) {
      if OccursAt(s, sep, i) {
        if i + |sep| <= |a| {
          OccursInLeft(a, sep + b, sep, i);
        } else {
          NoOccurrenceAcross(a, sep + b, sep, i);
        }
      }
    }
  }

  /** The first occurrence in `v + rest`, if any, lies behind `v` and the character after
      it, when `v` is free of `sep` and that character is not in `sep`. */
  lemma NoEarlyOccurrence(v: string, rest: string, sep: string)
    requires sep != [] && Free(v, sep) && (rest == [] || rest[0] !in sep)
    ensures IndexFrom(v + rest, sep, 0) > |v|
  {
    var s := v + rest;
    forall i: nat | i <= |v| ensures !OccursAt(s, sep, i) {
      if OccursAt(s, sep, i) {
        if i + |sep| <= |v| {
          OccursInLeft(v, rest, sep, i);
        } else {
          NoOccurrenceAcross(v, rest, sep, i);
        }
      }
    }
  }

  lemma SessionHasOneJ()
    ensures forall k :: 0 < k < |SESSION| ==> SESSION[k] != SESSION[0]
    ensures ';' !in SESSION
  {
  }

  /** From a header that carries JSESSIONID=v, ended by a semicolon or the end, the handler
      extracts v. */
  lemma ExtractsTheId(before: string, v: string, rest: string)
    requires Free(before, SESSION) && Free(v, SESSION) && ';' !in v
    requires rest == [] || rest[0] == ';'
    ensures SessionId(before + "JSESSIONID=" + (v + rest)) == Ref(v)
  {
    SessionHasOneJ();
    var header := before + SESSION + (v + rest);
    FirstOccurrence(before, SESSION, v + rest);
    assert header[|before| + |SESSION|..] == v + rest;
    var after := Split(header, SESSION);
    assert after == [header[..|before|]] + Split(v + rest, SESSION);
    NoEarlyOccurrence(v, rest, SESSION);
    var k := IndexFrom(v + rest, SESSION, 0);
    var field := Split(v + rest, SESSION)[0];
    assert field == if k > |v + rest| then v + rest else (v + rest)[..k];
    assert after[1] == field;
    FirstField(field, v);
  }

  /** A field that starts with `v`, and then ends or has a semicolon, has first part `v`. */
  lemma FirstField(field: string, v: string)
    requires |v| <= |field| && field[..|v|] == v && ';' !in v
    requires |field| == |v| || field[|v|] == ';'
    ensures Split(field, ";")[0] == v
  {
    forall i: nat | i < |v| ensures !OccursAt(field, ";", i) {
      assert field[i] == v[i];
    }
    if |field| > |v| {
      SemicolonAt(field, |v|);
    } else {
      assert !OccursAt(field, ";", |v|);
      assert field == v;
    }
  }

  /** Where the first semicolon is, the first part ends. */
  lemma SemicolonAt(field: string, k: nat)
    requires k < |field| && field[k] == ';' && forall i: nat :: i < k ==> !OccursAt(field, ";", i)
    ensures Split(field, ";")[0] == field[..k]
  {
    assert field[k..k + 1] == ";";
    assert OccursAt(field, ";", k);
    assert IndexFrom(field, ";", 0) == k;
  }

  /** A cookie-octet of section 4.1.1 of RFC 6265. */
  predicate CookieOctet(c: char) {
    c == '!' || '#' <= c <= '+' || '-' <= c <= ':' || '<' <= c <= '[' || ']' <= c <= '~'
  }

  /** A cookie-value of section 4.1.1 of RFC 6265: octets, possibly in double quotes. */
  predicate CookieValue(v: string) {
    (forall i :: 0 <= i < |v| ==> CookieOctet(v[i])) || Quoted(v)
  }

  predicate Quoted(v: string) {
    |v| > 1 && v[0] == '"' && v[|v| - 1] == '"' && forall i :: 1 <= i < |v| - 1 ==> CookieOctet(v[i])
  }

  /** The value net/http reports for a cookie the client sends back: quotes are stripped. */
  function SentBack(v: string): string {
    if |v| > 1 && v[0] == '"' && v[|v| - 1] == '"' then v[1..|v| - 1] else v
  }

  /** The round trip of a cookie value free of the session marker and the namespace: the id
      extracted is the value, and what the client sends back finds the entry stored under
      it exactly when the value is not in quotes. */
  lemma BindingRoundTrip(prefix: string, before: string, v: string, rest: string)
    requires CookieValue(v) && Free(v, SESSION) && Free(v, Namespace(prefix))
    requires Free(before, SESSION) && (rest == [] || rest[0] == ';')
    ensures SessionId(before + "JSESSIONID=" + (v + rest)) == Ref(v)
    ensures NamespacedKey(prefix, v) == prefix + ":" + v
    ensures NamespacedKey(prefix, SentBack(v)) == NamespacedKey(prefix, v) <==> !Quoted(v)
  {
    assert ';' !in v;
    ExtractsTheId(before, v, rest);
    var w := SentBack(v);
    SharedKeyIff(prefix, v, w);
    if Quoted(v) {
      assert |w| < |v|;
      assert v != Namespace(prefix) + w by {
        assert OccursAt(Namespace(prefix) + w, Namespace(prefix), 0);
      }
    }
  }
}
