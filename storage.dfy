/** The server's key-value store: string keys mapped to string values,
    written and read in place. */
module Storage {

  /** What `fmt.Sprintf("%v", nil)` prints, returned for a missing key. */
  const NIL_TEXT := "<nil>"

  /** `InMemoryDB`; `data` is the map its methods update. */
  class InMemoryDB {
    var data: map<string, string>

    /** `NewInMemoryDB`: no key has a value. */
    constructor ()
      ensures data == map[]
    {
      data := map[];
    }

    /** `WriteValue`: `key` now has `value`, replacing any earlier one; every
        other key keeps what it had. */
    method WriteValue(key: string, value: string)
      modifies this
      ensures data == old(data)[key := value]
      ensures key in data && data[key] == value
      ensures forall k :: k != key ==> Lookup(data, k) == Lookup(old(data), k)
    {
      data := data[key := value];
    }

    /** `GetValue`: the value and true for a key that has one, `<nil>` and
        false otherwise; the store is not changed. */
    method GetValue(key: string) returns (value: string, ok: bool)
      ensures ok <==> key in data
      ensures ok ==> value == data[key]
      ensures !ok ==> value == NIL_TEXT
    {
      ok := key in data;
      value := if ok then data[key] else NIL_TEXT;
    }
  }

  /** What GetValue returns for `key` in a store holding `m`. */
  function Lookup(m: map<string, string>, key: string): (r: (string, bool))
  {
    if key in m then (m[key], true) else (NIL_TEXT, false)
  }

  /** The store after the given writes, in order, starting from a new one. */
  function Replay(writes: seq<(string, string)>): map<string, string>
  {
    if writes == [] then map[]
    else
      var (key, value) := writes[|writes| - 1];
      Replay(writes[..|writes| - 1])[key := value]
  }

  /** A key never written reads as missing, whatever was written to other
      keys. */
  lemma {:induction false} ReplayUnwritten(writes: seq<(string, string)>, key: string)
    requires forall i :: 0 <= i < |writes| ==> writes[i].0 != key
    ensures Lookup(Replay(writes), key) == (NIL_TEXT, false)
  {
    if writes != [] {
      var prefix := writes[..|writes| - 1];
      assert forall i :: 0 <= i < |prefix| ==> prefix[i] == writes[i];
      ReplayUnwritten(prefix, key);
    }
  }

  /** A key reads as the value of its last write, whatever was written to
      other keys after it. */
  lemma {:induction false} ReplayLastWrite(writes: seq<(string, string)>, key: string, i: nat)
    requires i < |writes| && writes[i].0 == key
    requires forall j :: i < j < |writes| ==> writes[j].0 != key
    ensures Lookup(Replay(writes), key) == (writes[i].1, true)
  {
    var n := |writes| - 1;
    if i < n {
      var prefix := writes[..n];
      assert forall j :: 0 <= j < n ==> prefix[j] == writes[j];
      ReplayLastWrite(prefix, key, i);
    }
  }

  /** Two writes to one key: the later one wins. */
  lemma LastWriteWins(m: map<string, string>, key: string, v1: string, v2: string)
    ensures Lookup(m[key := v1][key := v2], key) == (v2, true)
  {
  }
}
