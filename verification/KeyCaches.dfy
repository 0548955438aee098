// The bearer-token cache (internal/store/cache.go) over the API-key table
// (internal/store/apikeys.go), for any interleaving of callers, invalidations and edits of
// the table by anyone. Times are nanoseconds; token hashes are taken to be collision-free,
// so a token stands for its hash.
module KeyCaches {
  import opened Options
  import opened Text

  const VERIFY_TTL := 5_000_000_000
  const TOUCH_INTERVAL := 60_000_000_000
  const MAX_ENTRIES := 4096

  // ----- The table -----------------------------------------------------------------------------

  datatype Row = Row(id: nat, expires: Option<int>, revoked: bool)

  type Table = map<string, Row>  // keyed by token, which is unique

  predicate Active(row: Row, now: int) {
    !row.revoked && !(row.expires.Some? && now > row.expires.value)
  }

  // VerifyAPIKey on a database that can be read: the id of the live key behind raw.
  function Verify(table: Table, raw: string, now: int): Option<nat> {
    var token := TrimSpace(raw);
    if token != "" && token in table && Active(table[token], now) then Some(table[token].id) else None
  }

  // A token is accepted exactly when, trimmed, it is that of a key neither revoked nor past
  // its expiry, and then it is known by that key's id.
  lemma VerifyExactly(table: Table, raw: string, now: int, id: nat)
    ensures var token := TrimSpace(raw);
            Verify(table, raw, now) == Some(id) <==>
              && token != "" && token in table && table[token].id == id && !table[token].revoked
              && (table[token].expires == None || now <= table[token].expires.value)
  {
  }

  // ----- The sections as the code writes them -----------------------------------------------------

  datatype Entry = Entry(keyId: nat, ok: bool, expires: int, lastTouch: int)

  predicate Hit(m: map<string, Entry>, raw: string, now: int) {
    raw in m && now < m[raw].expires
  }

  predicate NeedsTouch(e: Entry, now: int) {
    e.ok && now - e.lastTouch >= TOUCH_INTERVAL
  }

  // The entry that a call which read the clock at now builds from the answer of the store.
  function EntryFor(key: Option<nat>, now: int): Entry {
    if key.Some? then Entry(key.value, true, now + VERIFY_TTL, now) else Entry(0, false, now + VERIFY_TTL, 0)
  }

  function Touched(m: map<string, Entry>, raw: string, now: int): map<string, Entry> {
    if Hit(m, raw, now) && NeedsTouch(m[raw], now) then m[raw := m[raw].(lastTouch := now)] else m
  }

  function Stored(m: map<string, Entry>, raw: string, e: Entry): map<string, Entry> {
    if |m| >= MAX_ENTRIES then map[raw := e] else m[raw := e]
  }

  // A key in use is touched at most once a minute, however often it is looked up.
  lemma TouchedOnceAMinute(m: map<string, Entry>, raw: string, first: int, second: int)
    requires Hit(m, raw, first) && NeedsTouch(m[raw], first) && second < first + 60_000_000_000
    ensures raw in Touched(m, raw, first) && !NeedsTouch(Touched(m, raw, first)[raw], second)
    ensures Touched(Touched(m, raw, first), raw, second) == Touched(m, raw, first)
  {
  }

  // The memo of AuthConfigured; until is None at the zero time.
  datatype Memo = Memo(val: bool, until: Option<int>)

  // AuthConfigured by a call that read the clock at now, when CountAPIKeys would give count.
  function Consulted(memo: Memo, now: int, count: Option<nat>): Memo {
    if memo.until.Some? && now < memo.until.value then memo
    else Memo(count.None? || count.value > 0, Some(now + VERIFY_TTL))
  }

  class KeyCache {
    var m: map<string, Entry>
    var anyVal: bool
    var anyUntil: Option<int>   // None: the zero time

    constructor ()
      ensures m == map[] && !anyVal && anyUntil == None
    {
      m, anyVal, anyUntil := map[], false, None;
    }

    // The first section of Valid: Some(answer) on a hit, with the key to touch, if any.
    method LookUp(raw: string, now: int) returns (answer: Option<bool>, touch: Option<nat>)
      modifies this`m
      ensures answer == if Hit(old(m), raw, now) then Some(old(m)[raw].ok) else None
      ensures touch == if Hit(old(m), raw, now) && NeedsTouch(old(m)[raw], now) then Some(old(m)[raw].keyId) else None
      ensures m == Touched(old(m), raw, now)
      ensures answer.Some? <==> raw in old(m) && now < old(m)[raw].expires
      ensures answer.Some? ==> answer.value == old(m)[raw].ok
      ensures touch.Some? <==> answer == Some(true) && now - old(m)[raw].lastTouch >= 60_000_000_000
      ensures touch.Some? ==> touch.value == old(m)[raw].keyId && m == old(m)[raw := old(m)[raw].(lastTouch := now)]
      ensures touch.None? ==> m == old(m)
    {
      if raw !in m || now >= m[raw].expires {
        return None, None;
      }
      var e := m[raw];
      touch := None;
      if e.ok && now - e.lastTouch >= TOUCH_INTERVAL {
        m := m[raw := e.(lastTouch := now)];
        touch := Some(e.keyId);
      }
      answer := Some(e.ok);
    }

    // The last section of Valid; key is what VerifyAPIKey returned, None on an error.
    method Store(raw: string, key: Option<nat>, now: int)
      modifies this`m
      ensures m == Stored(old(m), raw, EntryFor(key, now))
      ensures raw in m && m[raw].ok == key.Some? && m[raw].expires == now + 5_000_000_000
      ensures key.Some? ==> m[raw].keyId == key.value && m[raw].lastTouch == now
      ensures forall k :: k in m && k != raw ==> k in old(m) && m[k] == old(m)[k]
      ensures |old(m)| < 4096 ==> forall k :: k in old(m) ==> k in m
      ensures |old(m)| <= 4096 ==> |m| <= 4096
    {
      var e := Entry(0, key.Some?, now + VERIFY_TTL, 0);
      if key.Some? {
        e := e.(keyId := key.value, lastTouch := now);
      }
      if |m| >= MAX_ENTRIES {
        m := map[];
      }
      m := m[raw := e];
    }

    method AuthConfigured(now: int, count: Option<nat>) returns (configured: bool)
      modifies this`anyVal, this`anyUntil
      ensures Memo(anyVal, anyUntil) == Consulted(Memo(old(anyVal), old(anyUntil)), now, count)
      ensures configured == anyVal
      ensures var lasts := old(anyUntil).Some? && now < old(anyUntil).value;
              if lasts then configured == old(anyVal) && anyUntil == old(anyUntil)
              else configured == (count.None? || count.value > 0) && anyUntil == Some(now + 5_000_000_000)
    {
      if anyUntil.Some? && now < anyUntil.value {
        return anyVal;
      }
      anyVal := count.None? || count.value > 0;
      anyUntil := Some(now + VERIFY_TTL);
      configured := anyVal;
    }

    method Invalidate()
      modifies this`m, this`anyUntil
      ensures m == map[] && anyUntil == None
    {
      m := map[];
      anyUntil := None;
    }
  }
}
