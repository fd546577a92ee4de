/** Types shared by every table: record ids, clock readings, optional fields. */
module Common {

  /** A record id: the string form of a uuid4. */
  type Id = string

  /** A reading of the clock (`datetime.now`), supplied by the caller. */
  type Time = int

  datatype Option<+T> = None | Some(value: T)

  /** Python truthiness of an optional string field: present and non-empty.
      The data layer only applies a field of an update when it is truthy. */
  predicate Supplied(o: Option<string>) {
    o.Some? && o.value != ""
  }
}
