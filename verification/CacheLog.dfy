/** What a cache has been told: the key, the epoch and the value of one store. */
module CacheLog {
  datatype Stored<K, V> = Stored(key: K, epoch: nat, value: V)
}
