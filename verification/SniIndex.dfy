/**
 SslContexts: the index from server names to TLS contexts. Names are compared
 without regard to case (a server name is a DNS host name, section 3 of RFC
 6066), so a key is a lower-case name; a wildcard "*.example.com" is stored
 under its key ".example.com". Contexts are numbers.

 The index is held against a reference that looks at one key at a time and
 keeps only the latest operation on it.
 */
module SniIndex {

  type Key = string
  type Context = nat

  datatype Option<T> = None | Some(value: T)

  // ---------------------------------------------------------------------------
  // Names and keys
  // ---------------------------------------------------------------------------

  function LowerChar(c: char): (r: char) {
    if 'A' <= c <= 'Z' then ((c as int) + 32) as char else c
  }

  function Lower(s: string): (r: string)
    ensures |r| == |s|
  {
    if s == "" then "" else [LowerChar(s[0])] + Lower(s[1..])
  }

  lemma {:induction false} LowerAt(s: string, i: nat)
    requires i < |s|
    ensures Lower(s)[i] == LowerChar(s[i])
  {
    if i > 0 {
      LowerAt(s[1..], i - 1);
    }
  }

  /** The same letter in two cases, or the same character. */
  predicate SameLetter(a: char, b: char) {
    || a == b
    || ('a' <= a <= 'z' && b as int == a as int - 32)
    || ('a' <= b <= 'z' && a as int == b as int - 32)
  }

  /** Names that `dn_char_traits` holds equal, position by position. */
  predicate SameName(a: string, b: string) {
    |a| == |b| && forall i | 0 <= i < |a| :: SameLetter(a[i], b[i])
  }

  lemma LetterLowersIff(a: char, b: char)
    ensures LowerChar(a) == LowerChar(b) <==> SameLetter(a, b)
  {
  }

  /** Keys are equal exactly if the names are equal up to ASCII case. */
  lemma KeysEqualIff(a: string, b: string)
    ensures Lower(a) == Lower(b) <==> SameName(a, b)
  {
    if |a| == |b| {
      forall i | 0 <= i < |a| ensures Lower(a)[i] == Lower(b)[i] <==> SameLetter(a[i], b[i]) {
        LowerAt(a, i);
        LowerAt(b, i);
        LetterLowersIff(a[i], b[i]);
      }
    }
  }

  /** `strchr(s, '*')` finds nothing: there is no star before the first NUL. */
  predicate StarFree(s: string) {
    s == "" || s[0] == '\0' || (s[0] != '*' && StarFree(s[1..]))
  }

  /** The key of a name as `insertSSLCtxByDomainNameImpl` forms it, or nothing where it throws. */
  function KeyOf(dn: string): (r: Option<Key>) {
    if |dn| > 2 && dn[0] == '*' && dn[1] != '.' then None
    else
      var s := if |dn| > 2 && dn[0] == '*' then dn[1..] else dn;
      if s == "." || !StarFree(s) then None else Some(Lower(s))
  }

  /** The key that `removeSSLContextConfigByDomainName` forms. */
  function RemovalKey(dn: string): (k: Key) {
    Lower(if "*." <= dn then dn[1..] else dn)
  }

  /** Where the first dot is, or -1. */
  function FirstDot(s: string): (i: int)
    ensures -1 <= i < |s|
    ensures i >= 0 ==> s[i] == '.' && '.' !in s[..i]
    ensures i < 0 ==> '.' !in s
  {
    if s == "" then -1
    else if s[0] == '.' then 0
    else
      var j := FirstDot(s[1..]);
      assert s == [s[0]] + s[1..];
      if j < 0 then -1 else
        assert s[..j + 1] == [s[0]] + s[1..][..j];
        j + 1
  }

  /** The wildcard key one label up. */
  function Suffix(k: Key): (r: Option<Key>) {
    if FirstDot(k) < 0 then None else Some(k[FirstDot(k)..])
  }

  /** The names that are accepted: a leading "*." before a nonempty rest, or no star at all, and not a lone dot. */
  lemma AcceptedIff(dn: string)
    ensures KeyOf(dn).Some? <==>
            (|dn| > 2 && "*." <= dn && StarFree(dn[1..])) || (StarFree(dn) && dn != ".")
  {
  }

  /** Removal by a name reaches what an insertion by that name, in any case, put in. */
  lemma RemovalFindsInsertion(dn: string, other: string)
    requires KeyOf(dn).Some? && SameName(dn, other)
    ensures RemovalKey(other) == KeyOf(dn).value
  {
    KeysEqualIff(dn, other);
    LowerPrefix(dn, other);
    if "*." <= dn {
      assert Lower(dn) == [LowerChar(dn[0])] + Lower(dn[1..]);
      assert Lower(other) == [LowerChar(other[0])] + Lower(other[1..]);
      assert Lower(dn)[1..] == Lower(dn[1..]) && Lower(other)[1..] == Lower(other[1..]);
    }
  }

  lemma LowerPrefix(a: string, b: string)
    requires Lower(a) == Lower(b)
    ensures "*." <= a <==> "*." <= b
  {
    if |a| >= 2 {
      assert Lower(a)[0] == LowerChar(a[0]) && Lower(b)[0] == LowerChar(b[0]);
      assert Lower(a)[1] == Lower(a[1..])[0] && Lower(b)[1] == Lower(b[1..])[0];
    }
  }

  lemma {:induction false} FirstDotIs(s: string, n: nat)
    requires n < |s| && s[n] == '.' && forall i | 0 <= i < n :: s[i] != '.'
    ensures FirstDot(s) == n
    decreases n
  {
    if n > 0 {
      FirstDotIs(s[1..], n - 1);
    }
  }

  /** A wildcard key is one label up from a name exactly if the name is one dot-free label in front of it. */
  lemma SuffixIff(k: Key, wildcard: Key)
    requires wildcard != "" && wildcard[0] == '.'
    ensures Suffix(k) == Some(wildcard) <==>
            |k| >= |wildcard| && k[|k| - |wildcard|..] == wildcard && '.' !in k[..|k| - |wildcard|]
  {
    var n := |k| - |wildcard|;
    if n >= 0 && k[n..] == wildcard && '.' !in k[..n] {
      assert k[n] == wildcard[0];
      FirstDotIs(k, n);
    }
  }

  // ---------------------------------------------------------------------------
  // The index
  // ---------------------------------------------------------------------------

  datatype Index = Index(dnMap: map<Key, Context>, defaults: seq<Key>)

  const EMPTY: Index := Index(map[], [])

  /** The first occurrence of k is erased. */
  function EraseKey(s: seq<Key>, k: Key): (r: seq<Key>) {
    if s == [] then [] else if s[0] == k then s[1..] else [s[0]] + EraseKey(s[1..], k)
  }

  function InsertIntoDnMap(ix: Index, k: Key, ctx: Context): (r: Index) {
    Index(ix.dnMap[k := ctx], EraseKey(ix.defaults, k))
  }

  function InsertIntoDefaultKeys(ix: Index, k: Key): (r: Index) {
    Index(ix.dnMap - {k}, if k in ix.defaults then ix.defaults else ix.defaults + [k])
  }

  datatype Operation =
    | Insert(dn: string, ctx: Context, asDefault: bool)
    | Remove(dn: string)

  /** An operation that throws leaves the index as it is. */
  function Apply(ix: Index, op: Operation): (r: Index) {
    match op
    case Insert(dn, ctx, asDefault) =>
      (match KeyOf(dn)
       case None => ix
       case Some(k) => if asDefault then InsertIntoDefaultKeys(ix, k) else InsertIntoDnMap(ix, k, ctx))
    case Remove(dn) =>
      var k := RemovalKey(dn);
      if k in ix.defaults then ix else ix.(dnMap := ix.dnMap - {k})
  }

  function AfterAll(ops: seq<Operation>): (r: Index) {
    if ops == [] then EMPTY else Apply(AfterAll(ops[..|ops| - 1]), ops[|ops| - 1])
  }

  /** `SslContexts::getSSLCtx` */
  function Lookup(ix: Index, name: string): (r: Option<Context>) {
    var k := Lower(name);
    if k in ix.dnMap then Some(ix.dnMap[k])
    else match Suffix(k)
      case None => None
      case Some(w) => if w in ix.dnMap then Some(ix.dnMap[w]) else None
  }

  // ---------------------------------------------------------------------------
  // The reference: the latest operation on a key wins
  // ---------------------------------------------------------------------------

  datatype Entry = Absent | Default | Mapped(ctx: Context)

  /** What an operation makes of the entry of one key. The default's key cannot be removed. */
  function Latest(ops: seq<Operation>, k: Key): (e: Entry) {
    if ops == [] then Absent
    else
      var before := Latest(ops[..|ops| - 1], k);
      match ops[|ops| - 1]
      case Insert(dn, ctx, asDefault) =>
        if KeyOf(dn) == Some(k) then (if asDefault then Default else Mapped(ctx)) else before
      case Remove(dn) => if RemovalKey(dn) == k && before != Default then Absent else before
  }

  predicate NoDups(s: seq<Key>) {
    forall i, j | 0 <= i < j < |s| :: s[i] != s[j]
  }

  predicate Inv(ix: Index) {
    NoDups(ix.defaults) && forall i | 0 <= i < |ix.defaults| :: ix.defaults[i] !in ix.dnMap
  }

  function EntryAt(ix: Index, k: Key): (e: Entry) {
    if k in ix.dnMap then Mapped(ix.dnMap[k]) else if k in ix.defaults then Default else Absent
  }

  lemma {:induction false} EraseKeyMembers(s: seq<Key>, k: Key)
    requires NoDups(s)
    ensures NoDups(EraseKey(s, k))
    ensures forall x :: x in EraseKey(s, k) <==> x in s && x != k
  {
    if s != [] {
      assert s == [s[0]] + s[1..];
      assert s[0] !in s[1..];
      EraseKeyMembers(s[1..], k);
    }
  }

  lemma InsertMapped(ix: Index, k: Key, ctx: Context)
    requires Inv(ix)
    ensures Inv(InsertIntoDnMap(ix, k, ctx))
    ensures forall x :: EntryAt(InsertIntoDnMap(ix, k, ctx), x) == if x == k then Mapped(ctx) else EntryAt(ix, x)
  {
    EraseKeyMembers(ix.defaults, k);
    var erased := EraseKey(ix.defaults, k);
    forall i | 0 <= i < |erased| ensures erased[i] !in ix.dnMap[k := ctx] {
      assert erased[i] in erased;
    }
  }

  lemma InsertDefault(ix: Index, k: Key)
    requires Inv(ix)
    ensures Inv(InsertIntoDefaultKeys(ix, k))
    ensures forall x :: EntryAt(InsertIntoDefaultKeys(ix, k), x) == if x == k then Default else EntryAt(ix, x)
  {
  }

  lemma RemoveEntry(ix: Index, k: Key)
    requires Inv(ix) && k !in ix.defaults
    ensures Inv(ix.(dnMap := ix.dnMap - {k}))
    ensures forall x :: EntryAt(ix.(dnMap := ix.dnMap - {k}), x) == if x == k then Absent else EntryAt(ix, x)
  {
  }

  /**
   The index is the reference, after any operations: its two containers are
   disjoint and free of duplicates, and every key has the entry that the latest
   operation on it left.
   */
  lemma {:induction false} IndexIsLatest(ops: seq<Operation>)
    ensures Inv(AfterAll(ops))
    ensures forall k :: EntryAt(AfterAll(ops), k) == Latest(ops, k)
    decreases |ops|
  {
    if ops != [] {
      var before := ops[..|ops| - 1];
      var ix := AfterAll(before);
      IndexIsLatest(before);
      hide Inv, KeyOf, RemovalKey;
      match ops[|ops| - 1]
      case Insert(dn, ctx, asDefault) =>
        if KeyOf(dn).Some? {
          var k := KeyOf(dn).value;
          if asDefault { InsertDefault(ix, k); } else { InsertMapped(ix, k, ctx); }
        }
      case Remove(dn) =>
        var k := RemovalKey(dn);
        if k !in ix.defaults {
          RemoveEntry(ix, k);
          assert EntryAt(ix, k) != Default;
        } else {
          assert EntryAt(ix, k) == Default by { DefaultsAreNotMapped(ix, k); }
        }
    }
  }

  lemma DefaultsAreNotMapped(ix: Index, k: Key)
    requires Inv(ix) && k in ix.defaults
    ensures EntryAt(ix, k) == Default
  {
  }

  /**
   Lookup after any operations: the latest exact entry if it is not the
   default's, else the latest entry of the wildcard one label up, else nothing.
   No other key matters, so a wildcard never matches two labels up.
   */
  lemma LookupIsLatest(ops: seq<Operation>, name: string)
    ensures Lookup(AfterAll(ops), name) ==
            var exact := Latest(ops, Lower(name));
            if exact.Mapped? then Some(exact.ctx)
            else match Suffix(Lower(name))
              case None => None
              case Some(w) => if Latest(ops, w).Mapped? then Some(Latest(ops, w).ctx) else None
  {
    IndexIsLatest(ops);
    var ix, k := AfterAll(ops), Lower(name);
    assert EntryAt(ix, k) == Latest(ops, k);
    if Suffix(k).Some? {
      assert EntryAt(ix, Suffix(k).value) == Latest(ops, Suffix(k).value);
    }
  }

  /** After any operations, names that are equal up to case find the same. */
  lemma LookupIgnoresCase(ops: seq<Operation>, a: string, b: string)
    requires SameName(a, b)
    ensures Lookup(AfterAll(ops), a) == Lookup(AfterAll(ops), b)
  {
    KeysEqualIff(a, b);
  }

  /** What was inserted under a name is found under it, in any case, whatever was there before. */
  lemma InsertedIsFound(ops: seq<Operation>, dn: string, ctx: Context, name: string)
    requires StarFree(dn) && dn != "." && SameName(dn, name)
    ensures Lookup(AfterAll(ops + [Insert(dn, ctx, false)]), name) == Some(ctx)
  {
    var all := ops + [Insert(dn, ctx, false)];
    assert all[..|all| - 1] == ops;
    KeysEqualIff(dn, name);
    LookupIsLatest(all, name);
  }

  /** The key of a wildcard is one label up from every host directly below it. */
  lemma WildcardKeyIs(rest: string, host: string, parent: string)
    requires KeyOf("*." + rest).Some? && SameName(rest, parent) && '.' !in host
    ensures Suffix(Lower(host + "." + parent)) == KeyOf("*." + rest)
  {
    var dn, name := "*." + rest, host + "." + parent;
    WildcardKey(rest);
    KeysEqualIff("." + rest, "." + parent);
    FirstDotOfName(host, parent);
    LowerDrops(name, |host|);
    assert name[|host|..] == "." + parent;
  }

  lemma WildcardKey(rest: string)
    requires KeyOf("*." + rest).Some?
    ensures KeyOf("*." + rest) == Some(Lower("." + rest))
  {
    hide Lower, StarFree;
    var dn := "*." + rest;
    assert dn[1..] == "." + rest;
    if rest == "" { assert dn == "*." && dn[0] == '*'; NotStarFree(dn); }
  }

  lemma NotStarFree(s: string)
    requires s != "" && s[0] == '*'
    ensures !StarFree(s)
  {
  }

  /** An insertion decides the entry of its own key. */
  lemma OwnKeyChanges(ops: seq<Operation>, dn: string, ctx: Context)
    requires KeyOf(dn).Some?
    ensures Latest(ops + [Insert(dn, ctx, false)], KeyOf(dn).value) == Mapped(ctx)
  {
    var all := ops + [Insert(dn, ctx, false)];
    assert all[..|all| - 1] == ops;
  }

  /**
   What was inserted under a wildcard is found by every host directly below it, in
   any case, that has no entry of its own.
   */
  lemma WildcardIsFound(ops: seq<Operation>, rest: string, ctx: Context, host: string, parent: string)
    requires KeyOf("*." + rest).Some? && SameName(rest, parent) && '.' !in host
    requires !Latest(ops, Lower(host + "." + parent)).Mapped?
    ensures Lookup(AfterAll(ops + [Insert("*." + rest, ctx, false)]), host + "." + parent) == Some(ctx)
  {
    hide KeyOf, Suffix, Lookup, AfterAll, Latest, Lower, SameName;
    var dn, name := "*." + rest, host + "." + parent;
    var all := ops + [Insert(dn, ctx, false)];
    WildcardKeyIs(rest, host, parent);
    OwnKeyChanges(ops, dn, ctx);
    if KeyOf(dn) != Some(Lower(name)) { OneKeyChanges(ops, dn, ctx, Lower(name)); }
    LookupIsLatest(all, name);
  }

  lemma {:induction false} LowerDrops(s: string, n: nat)
    requires n <= |s|
    ensures Lower(s)[n..] == Lower(s[n..])
  {
    if n == 0 {
      assert s[0..] == s;
    } else {
      LowerDrops(s[1..], n - 1);
      assert s[1..][n - 1..] == s[n..];
    }
  }

  /** A wildcard two labels up, or more, does not change what a name finds. */
  lemma NeverTwoLabelsUp(ops: seq<Operation>, host: string, parent: string, rest: string, ctx: Context)
    requires '.' !in host && KeyOf("*." + rest).Some?
    ensures var name := host + "." + parent + "." + rest;
            Lookup(AfterAll(ops + [Insert("*." + rest, ctx, false)]), name) == Lookup(AfterAll(ops), name)
  {
    var name, dn := host + "." + parent + "." + rest, "*." + rest;
    var all := ops + [Insert(dn, ctx, false)];
    var k, key := Lower(name), KeyOf(dn).value;
    assert |key| == |rest| + 1;
    FirstDotOfName(host, parent + "." + rest);
    assert name == host + "." + (parent + "." + rest);
    assert |Suffix(k).value| == |parent| + |rest| + 2;
    hide KeyOf, Lookup, AfterAll, Latest, FirstDot;
    LookupIsLatest(ops, name);
    LookupIsLatest(all, name);
    OneKeyChanges(ops, dn, ctx, k);
    OneKeyChanges(ops, dn, ctx, Suffix(k).value);
  }

  /** An insertion changes the entry of its own key only. */
  lemma OneKeyChanges(ops: seq<Operation>, dn: string, ctx: Context, k: Key)
    requires KeyOf(dn) != Some(k)
    ensures Latest(ops + [Insert(dn, ctx, false)], k) == Latest(ops, k)
  {
    var all := ops + [Insert(dn, ctx, false)];
    assert all[..|all| - 1] == ops;
  }

  lemma FirstDotOfName(host: string, rest: string)
    requires '.' !in host
    ensures FirstDot(Lower(host + "." + rest)) == |host|
  {
    var name := host + "." + rest;
    var k := Lower(name);
    forall i | 0 <= i < |name| ensures k[i] == '.' <==> name[i] == '.' {
      LowerAt(name, i);
    }
    forall i | 0 <= i < |host| ensures k[i] != '.' {
      assert name[i] == host[i];
    }
    FirstDotIs(k, |host|);
  }
}
