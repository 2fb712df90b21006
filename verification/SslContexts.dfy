/** SslContexts as an object: a map and a vector changed in place, and lookups that only read them. */
module SslContextsObject {
  import opened SniIndex

  class SslContexts {
    var dnMap: map<Key, Context>
    var defaultCtxKeys: seq<Key>

    function View(): (ix: Index)
      reads this
    {
      Index(dnMap, defaultCtxKeys)
    }

    constructor ()
      ensures View() == EMPTY
    {
      dnMap, defaultCtxKeys := map[], [];
    }

    /** `std::find` on the vector of default keys. */
    static method Find(s: seq<Key>, k: Key) returns (i: nat)
      ensures i <= |s| && k !in s[..i] && (i < |s| <==> k in s) && (i < |s| ==> s[i] == k)
    {
      i := 0;
      while i < |s| && s[i] != k
        invariant i <= |s| && k !in s[..i]
      {
        i := i + 1;
      }
    }

    static lemma {:induction false} EraseKeyAt(s: seq<Key>, k: Key, i: nat)
      requires i < |s| && s[i] == k && k !in s[..i]
      ensures EraseKey(s, k) == s[..i] + s[i + 1..]
    {
      if i > 0 {
        assert s[0] in s[..i];
        assert s[..i][1..] == s[1..][..i - 1];
        EraseKeyAt(s[1..], k, i - 1);
      }
    }

    static lemma {:induction false} EraseKeyAbsent(s: seq<Key>, k: Key)
      requires k !in s
      ensures EraseKey(s, k) == s
    {
      if s != [] {
        EraseKeyAbsent(s[1..], k);
      }
    }

    method InsertIntoDnMap(k: Key, ctx: Context, overwrite: bool)
      requires Inv(View())
      modifies this
      ensures Inv(View())
      ensures View() == if overwrite || EntryAt(old(View()), k) == Absent
                        then SniIndex.InsertIntoDnMap(old(View()), k, ctx) else old(View())
    {
      InsertMapped(View(), k, ctx);
      var v2 := Find(defaultCtxKeys, k);
      if v2 == |defaultCtxKeys| { EraseKeyAbsent(defaultCtxKeys, k); } else { EraseKeyAt(defaultCtxKeys, k, v2); }
      if k !in dnMap && v2 == |defaultCtxKeys| {
        dnMap := dnMap[k := ctx];
      } else if k in dnMap {
        if dnMap[k] == ctx {
          assert dnMap[k := ctx] == dnMap;
        } else if overwrite {
          dnMap := dnMap[k := ctx];
        }
      } else if overwrite {
        defaultCtxKeys := defaultCtxKeys[..v2] + defaultCtxKeys[v2 + 1..];
        dnMap := dnMap[k := ctx];
      }
    }

    method InsertIntoDefaultKeys(k: Key, overwrite: bool)
      requires Inv(View())
      modifies this
      ensures Inv(View())
      ensures View() == if overwrite || EntryAt(old(View()), k) == Absent
                        then SniIndex.InsertIntoDefaultKeys(old(View()), k) else old(View())
    {
      InsertDefault(View(), k);
      var v2 := Find(defaultCtxKeys, k);
      if k !in dnMap && v2 == |defaultCtxKeys| {
        assert dnMap - {k} == dnMap;
        defaultCtxKeys := defaultCtxKeys + [k];
      } else if k in dnMap {
        if overwrite {
          dnMap := dnMap - {k};
          defaultCtxKeys := defaultCtxKeys + [k];
        }
      } else {
        assert dnMap - {k} == dnMap;
      }
    }

    /** `insertSSLCtxByDomainName`: a name it does not take is refused (thrown if strict, logged if not). */
    method InsertSSLCtxByDomainName(dn: string, ctx: Context, defaultFallback: bool) returns (ok: bool)
      requires Inv(View())
      modifies this
      ensures Inv(View()) && View() == Apply(old(View()), Insert(dn, ctx, defaultFallback))
      ensures ok <==> KeyOf(dn).Some?
    {
      var name := dn;
      if |name| > 2 && name[0] == '*' {
        if name[1] == '.' {
          name := name[1..];
        } else {
          return false;
        }
      }
      if name == "." || !StarFree(name) {
        return false;
      }
      var k := Lower(name);
      if defaultFallback {
        InsertIntoDefaultKeys(k, true);
      } else {
        InsertIntoDnMap(k, ctx, true);
      }
      return true;
    }

    /** `removeSSLContextConfigByDomainName`: refused for a key of the default context. */
    method RemoveSSLContextConfigByDomainName(dn: string) returns (ok: bool)
      requires Inv(View())
      modifies `dnMap
      ensures Inv(View()) && View() == Apply(old(View()), Remove(dn))
      ensures ok <==> EntryAt(old(View()), RemovalKey(dn)) != Default
    {
      var k := Lower(if "*." <= dn then dn[1..] else dn);
      var at := Find(defaultCtxKeys, k);
      if at != |defaultCtxKeys| {
        return false;
      }
      dnMap := dnMap - {k};
      return true;
    }

    /** `getSSLCtx`, with its exact and its suffix search. */
    method GetSSLCtx(name: string) returns (r: Option<Context>)
      ensures r == Lookup(View(), name)
    {
      var k := Lower(name);
      if k in dnMap {
        return Some(dnMap[k]);
      }
      var dot := FirstDot(k);
      if dot >= 0 && k[dot..] in dnMap {
        return Some(dnMap[k[dot..]]);
      }
      return None;
    }

    /** `isDefaultCtx`: the name or its wildcard one label up is a key of the default context. */
    method IsDefaultCtx(name: string) returns (r: bool)
      requires Inv(View())
      ensures var k := Lower(name);
              r <==> EntryAt(View(), k) == Default ||
                     (Suffix(k).Some? && EntryAt(View(), Suffix(k).value) == Default)
    {
      var k := Lower(name);
      var i := Find(defaultCtxKeys, k);
      if i < |defaultCtxKeys| {
        return true;
      }
      var dot := FirstDot(k);
      if dot >= 0 {
        i := Find(defaultCtxKeys, k[dot..]);
        return i < |defaultCtxKeys|;
      }
      return false;
    }
  }
}
