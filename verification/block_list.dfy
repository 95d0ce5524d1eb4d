/**
 The durable key-value namespace `RT_BLOCKED` shared by the gate (reader) and the
 registrar (writer). A key is present or absent; the value and the expiration TTL a
 `put` recorded are kept as data, and expiry over wall-clock time is not modelled.
 */
module BlockList {

  /** What `put(key, value, { expirationTtl })` stored. */
  datatype Entry = Entry(value: string, ttl: int)

  type Store = map<string, Entry>

  /** The key `sid:<sid>` under which a session is blocked. */
  function SidKey(sid: string): (k: string)
    ensures |k| == |sid| + 4 && k[..4] == "sid:" && k[4..] == sid
  {
    "sid:" + sid
  }

  /** Every block key starts with `sid:`, and distinct sessions are blocked under
      distinct keys. */
  lemma SidKeyInjective(a: string, b: string)
    ensures SidKey(a)[..4] == "sid:"
    ensures SidKey(a) == SidKey(b) <==> a == b
  {
  }
}
