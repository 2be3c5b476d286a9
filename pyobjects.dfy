/**
 * The Python objects an event passes through: the event is a dict whose
 * top-level values are either plain values or references to dict and list
 * objects. `dict.copy()` copies only the top level, so a copy and its original
 * share those dict and list objects, and an update made through one is seen
 * through the other.
 *
 * Below the top level, values are immutable JSON trees: the code modelled
 * replaces entries of the shared dicts and items of the shared list, but never
 * updates anything nested deeper in place.
 */
module PyObjects {
  import opened Json

  /** A top-level value held directly: anything but a list or a dict. */
  type ScalarJson = j: Json | !j.Arr? && !j.Obj? witness Null

  /** A dict object (the `start`/`end` dicts of an event). */
  class JsonDict {
    var entries: map<string, Json>

    constructor (entries: map<string, Json>)
      ensures this.entries == entries
    {
      this.entries := entries;
    }
  }

  /** A list object (the `attendees` list of an event). */
  class JsonList {
    var items: seq<Json>

    constructor (items: seq<Json>)
      ensures this.items == items
    {
      this.items := items;
    }
  }

  /** A top-level value of an event: a plain value, or a reference to a shared dict or list. */
  datatype Slot = Scalar(j: ScalarJson) | DictRef(d: JsonDict) | ListRef(l: JsonList)
  {
    /** The object this value refers to, if any. */
    function Objects(): set<object>
    {
      match this
      case Scalar(_) => {}
      case DictRef(d) => {d}
      case ListRef(l) => {l}
    }
  }

  /** Python's truth value of a top-level value: an empty dict or list is false. */
  predicate SlotTruthy(s: Slot)
    reads s.Objects()
  {
    match s
    case Scalar(j) => Truthy(j)
    case DictRef(d) => d.entries != map[]
    case ListRef(l) => l.items != []
  }

  /** The dict object stored under `key`, as a frame. */
  function DictAt(fields: map<string, Slot>, key: string): set<object>
  {
    if key in fields && fields[key].DictRef? then {fields[key].d} else {}
  }

  /** The list object stored under `key`, as a frame. */
  function ListAt(fields: map<string, Slot>, key: string): set<object>
  {
    if key in fields && fields[key].ListRef? then {fields[key].l} else {}
  }

  /** The event dict itself. */
  class EventRecord {
    var fields: map<string, Slot>

    constructor (fields: map<string, Slot>)
      ensures this.fields == fields
    {
      this.fields := fields;
    }

    /** `dict.copy()`: a new top-level dict whose values are the very same values and objects. */
    method Copy() returns (c: EventRecord)
      ensures fresh(c) && c.fields == fields
    {
      c := new EventRecord(fields);
    }
  }
}
