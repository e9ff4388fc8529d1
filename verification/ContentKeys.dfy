/** When two content hashes count as one, and when two tenants share a log. */
module ContentKeys {
  import opened Texts
  import opened LedgerModel

  // ---------- letter case ----------

  /** The same unit, or an ASCII letter in the other case. */
  predicate SameLetter(u: Unit, v: Unit) {
    u == v || (65 <= u <= 90 && v == u + 32) || (65 <= v <= 90 && u == v + 32)
  }

  predicate SameUpToCase(s: Text, t: Text) {
    |s| == |t| && forall i | 0 <= i < |s| :: SameLetter(s[i], t[i])
  }

  /** Lower-casing identifies exactly the texts that differ in letter case alone. */
  lemma LowerExactly(s: Text, t: Text)
    ensures Lower(s) == Lower(t) <==> SameUpToCase(s, t)
    ensures SameUpToCase(s, Lower(s)) && forall i | 0 <= i < |s| :: !(65 <= Lower(s)[i] <= 90)
  {
    if Lower(s) == Lower(t) {
      forall i | 0 <= i < |s|
        ensures SameLetter(s[i], t[i])
      {
        assert Lower(s)[i] == Lower(t)[i];
      }
    }
  }

  lemma SameUpToCaseSymmetric(s: Text, t: Text)
    ensures SameUpToCase(s, t) <==> SameUpToCase(t, s)
  {
  }

  // ---------- content keys ----------

  const BAR: Unit := 124

  /** True of the hexadecimal hashes that the routes let through. */
  predicate BarFree(t: Text) {
    BAR !in t
  }

  lemma KeyText(tenant: Text, hash: Text)
    ensures ContentKey(tenant, hash) == tenant + [BAR] + Lower(hash)
    ensures BarFree(hash) ==> BarFree(Lower(hash))
  {
    assert Ascii("|") == [BAR];
  }

  lemma NoBarBehind(s: Text, t: Text)
    requires BarFree(t)
    ensures forall k | |s| < k < |s| + 1 + |t| :: (s + [BAR] + t)[k] != BAR
  {
  }

  lemma LastBar(s: Text, t: Text, u: Text, v: Text)
    requires BarFree(t) && BarFree(v) && s + [BAR] + t == u + [BAR] + v
    ensures s == u && t == v
  {
    NoBarBehind(s, t);
    NoBarBehind(u, v);
    var a := s + [BAR] + t;
    assert a[|s|] == BAR && a[|u|] == BAR;
    assert s == a[..|s|] && u == a[..|u|] && t == a[|s| + 1..] && v == a[|u| + 1..];
  }

  /** Two submissions have one content key exactly if they are by one tenant and of one hash, up to letter case. */
  lemma ContentKeyExactly(tenant: Text, hash: Text, tenant': Text, hash': Text)
    requires BarFree(hash) && BarFree(hash')
    ensures ContentKey(tenant, hash) == ContentKey(tenant', hash') <==> tenant == tenant' && SameUpToCase(hash, hash')
  {
    KeyText(tenant, hash);
    KeyText(tenant', hash');
    LowerExactly(hash, hash');
    hide Lower, ContentKey, BarFree, SameUpToCase;
    if ContentKey(tenant, hash) == ContentKey(tenant', hash') {
      LastBar(tenant, Lower(hash), tenant', Lower(hash'));
    }
  }

  /** With a bar in the hash, which the routes refuse, a key can stand for two tenants. */
  lemma BarredKeysCollide(tenant: Text, left: Text, right: Text)
    ensures ContentKey(tenant, left + [BAR] + right) == ContentKey(tenant + [BAR] + Lower(left), right)
  {
    KeyText(tenant, left + [BAR] + right);
    KeyText(tenant + [BAR] + Lower(left), right);
    assert Lower(left + [BAR] + right) == Lower(left) + [BAR] + Lower(right);
  }

  // ---------- logs of tenants ----------

  predicate HasPrefix(tenant: Text) {
    Ascii("did:hara:tenant:") <= tenant
  }

  /** The log of a tenant is named after the last part of its DID. */
  lemma LogOfDid(slug: Text)
    ensures TenantLogId(Ascii("did:hara:tenant:") + slug) == Ascii("tenant:") + slug
    ensures !HasPrefix(slug) ==> TenantLogId(slug) == Ascii("tenant:") + slug
  {
    hide Ascii;
    assert (TENANT_PREFIX + slug)[|TENANT_PREFIX|..] == slug;
  }

  /** Two tenants share a log exactly if they are the same, or one is the other without the prefix. */
  lemma SharedLogExactly(tenant: Text, tenant': Text)
    ensures TenantLogId(tenant) == TenantLogId(tenant')
       <==> || tenant == tenant'
            || (!HasPrefix(tenant') && tenant == Ascii("did:hara:tenant:") + tenant')
            || (!HasPrefix(tenant) && tenant' == Ascii("did:hara:tenant:") + tenant)
  {
    var slug := if HasPrefix(tenant) then tenant[|TENANT_PREFIX|..] else tenant;
    var slug' := if HasPrefix(tenant') then tenant'[|TENANT_PREFIX|..] else tenant';
    LogOfDid(slug);
    LogOfDid(slug');
    hide Ascii;
    assert TenantLogId(tenant) == Ascii("tenant:") + slug && TenantLogId(tenant') == Ascii("tenant:") + slug';
    assert (Ascii("tenant:") + slug)[|Ascii("tenant:")|..] == slug;
    assert (Ascii("tenant:") + slug')[|Ascii("tenant:")|..] == slug';
    assert HasPrefix(tenant) ==> tenant == Ascii("did:hara:tenant:") + slug;
    assert HasPrefix(tenant') ==> tenant' == Ascii("did:hara:tenant:") + slug';
  }
}
