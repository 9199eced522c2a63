/**
 The first cache level: a map with expiry times, and the key patterns it deletes by.
 */
module MemoryCache {
  import opened Wrappers

  // ---------- patterns ----------

  /** A lone star matches all, a trailing star matches by prefix, all else is literal. */
  predicate MatchPattern(text: string, pattern: string) {
    if pattern == "*" then true
    else if |pattern| > 0 && pattern[|pattern| - 1] == '*' then
      var prefix := pattern[..|pattern| - 1];
      |text| >= |prefix| && text[..|prefix|] == prefix
    else text == pattern
  }

  /** Redis patterns with stars and question marks; brackets and backslashes not included. */
  predicate Glob(text: string, pattern: string)
    decreases |text| + |pattern|
  {
    if pattern == "" then text == ""
    else if pattern[0] == '*' then Glob(text, pattern[1..]) || (text != "" && Glob(text[1..], pattern))
    else text != "" && (pattern[0] == '?' || pattern[0] == text[0]) && Glob(text[1..], pattern[1..])
  }

  predicate Wild(c: char) { c == '*' || c == '?' }

  predicate Plain(s: string) { forall c | c in s :: !Wild(c) }

  /** The pattern without its trailing star, if it has one. */
  function Body(pattern: string): string {
    if |pattern| > 0 && pattern[|pattern| - 1] == '*' then pattern[..|pattern| - 1] else pattern
  }

  lemma {:induction false} GlobPlain(text: string, s: string)
    requires Plain(s)
    ensures Glob(text, s) <==> text == s
    ensures Glob(text, s + "*") <==> s <= text
    decreases |s|
  {
    if s == "" {
      GlobStar(text);
      assert s + "*" == "*";
    } else {
      assert s[0] in s && (s + "*")[1..] == s[1..] + "*";
      assert text != "" && text[0] == s[0] ==> text == [s[0]] + text[1..] && s == [s[0]] + s[1..];
      if text != "" { GlobPlain(text[1..], s[1..]); }
    }
  }

  lemma {:induction false} GlobStar(text: string)
    ensures Glob(text, "*")
  {
    assert "*"[1..] == "";
    if text != "" { GlobStar(text[1..]); }
  }

  lemma {:induction false} GlobSelf(s: string)
    ensures Glob(s, s)
  {
    if s != "" {
      GlobSelf(s[1..]);
      if s[0] == '*' { StarSkipsOne(s); }
    }
  }

  lemma StarSkipsOne(s: string)
    requires s != "" && s[0] == '*' && Glob(s[1..], s[1..])
    ensures Glob(s, s)
  {
    assert Glob(s[1..], s);
  }

  /** A wildcard stands for any other character. */
  lemma {:induction false} GlobReplaced(s: string, i: nat, c: char)
    requires i < |s| && Wild(s[i])
    ensures Glob(s[i := c], s)
  {
    var t := s[i := c];
    if i == 0 {
      assert t[1..] == s[1..];
      GlobSelf(s[1..]);
      if s[0] == '*' { assert Glob(t[1..], s); }
    } else {
      assert t[1..] == s[1..][i - 1 := c];
      GlobReplaced(s[1..], i - 1, c);
      if s[0] == '*' { assert Glob(t[1..], s); }
    }
  }

  lemma PlainBodyAgrees(text: string, pattern: string)
    requires Plain(Body(pattern))
    ensures MatchPattern(text, pattern) <==> Glob(text, pattern)
  {
    GlobPlain(text, Body(pattern));
    if Body(pattern) != pattern {
      assert pattern == Body(pattern) + "*";
    }
  }

  /** Memory and Redis delete the same keys for a pattern if and only if it has no
      wildcard except possibly a star at its end. */
  lemma PatternsAgreeIffPlain(pattern: string)
    ensures (forall text :: MatchPattern(text, pattern) <==> Glob(text, pattern)) <==> Plain(Body(pattern))
  {
    if Plain(Body(pattern)) {
      forall text ensures MatchPattern(text, pattern) <==> Glob(text, pattern) {
        PlainBodyAgrees(text, pattern);
      }
    } else {
      var body := Body(pattern);
      var i :| 0 <= i < |body| && Wild(body[i]);
      var text := pattern[i := 'x'];
      GlobReplaced(pattern, i, 'x');
      assert text[..|body|][i] != body[i];
      assert !MatchPattern(text, pattern);
    }
  }

  // ---------- the store ----------

  datatype Item<V> = Item(value: V, expiration: int)

  function Found<V>(store: map<string, Item<V>>, key: string, now: int): Option<V> {
    if key in store && now <= store[key].expiration then Some(store[key].value) else None
  }

  /** Reading drops an expired item. */
  function Touched<V>(store: map<string, Item<V>>, key: string, now: int): map<string, Item<V>> {
    if Found(store, key, now).Some? then store else store - {key}
  }

  class MemoryCache<V> {
    var store: map<string, Item<V>>

    constructor ()
      ensures store == map[]
    {
      store := map[];
    }

    method Set(key: string, value: V, ttl: int, now: int)
      modifies this
      ensures store == old(store)[key := Item(value, now + ttl)]
    {
      var expiration := now + ttl;
      store := store[key := Item(value, expiration)];
    }

    method Get(key: string, now: int) returns (r: Option<V>)
      modifies this
      ensures r == Found(old(store), key, now) && store == Touched(old(store), key, now)
    {
      if key !in store {
        assert store - {key} == store;
        return None;
      }
      var item := store[key];
      if now > item.expiration {
        store := store - {key};
        return None;
      }
      return Some(item.value);
    }

    method Delete(key: string)
      modifies this
      ensures store == old(store) - {key}
    {
      store := store - {key};
    }

    /** Whatever order the keys come in, exactly the matching ones go. */
    method DeletePattern(pattern: string)
      modifies this
      ensures store == map k | k in old(store) && !MatchPattern(k, pattern) :: old(store)[k]
    {
      var keys := store.Keys;
      while keys != {}
        invariant keys <= old(store).Keys
        invariant store == map k | k in old(store) && (k in keys || !MatchPattern(k, pattern)) :: old(store)[k]
      {
        var key :| key in keys;
        if MatchPattern(key, pattern) {
          store := store - {key};
        }
        keys := keys - {key};
      }
    }

    /** One round of the cleanup loop changes no answer of Get, now or later. */
    method Cleanup(now: int)
      modifies this
      ensures store == map k | k in old(store) && now <= old(store)[k].expiration :: old(store)[k]
      ensures forall k, later | later >= now :: Found(store, k, later) == Found(old(store), k, later)
    {
      var keys := store.Keys;
      while keys != {}
        invariant keys <= old(store).Keys
        invariant store == map k | k in old(store) && (k in keys || now <= old(store)[k].expiration) :: old(store)[k]
      {
        var key :| key in keys;
        if now > store[key].expiration {
          store := store - {key};
        }
        keys := keys - {key};
      }
    }
  }
}
