/** The configuration database, the YANG schema it is checked against, and YANG instance data. */
module YangModel {
  import opened Text

  /** A value of the configuration database: text, a list of texts, or a dictionary. */
  datatype Value = Str(s: string) | Arr(items: seq<string>) | Obj(fields: map<string, Value>)

  /** A JSON value of YANG instance data. */
  datatype Yang = YStr(s: string) | YInt(i: int) | YBool(b: bool) | YArr(items: seq<Yang>) | YObj(fields: map<string, Yang>)

  datatype Leaf = Leaf(typeName: string, isList: bool)

  type Leaves = map<string, Leaf>

  /** The list inside a map list: its key leaf and the names of its leaves in schema order. */
  datatype InnerList = InnerList(name: string, key: string, leaves: seq<string>)

  /** A list: its keys and leaves, the list inside it if it is a map list, the container inside it if any. */
  datatype ListModel =
    ListModel(name: string, keys: seq<string>, leaves: Leaves, inner: Option<InnerList>, nested: Option<string>)

  datatype Container = Container(name: string, lists: seq<ListModel>, containers: seq<Container>, leaves: Leaves)

  /** Lists whose entries hold a list of pairs where the configuration database has plain fields. */
  const MAP_LISTS: set<string> := {
    "DSCP_TO_TC_MAP_LIST", "DOT1P_TO_TC_MAP_LIST", "TC_TO_PRIORITY_GROUP_MAP_LIST", "TC_TO_QUEUE_MAP_LIST",
    "MAP_PFC_PRIORITY_TO_QUEUE_LIST", "PFC_PRIORITY_TO_PRIORITY_GROUP_MAP_LIST", "DSCP_TO_FC_MAP_LIST",
    "EXP_TO_FC_MAP_LIST", "CABLE_LENGTH_LIST", "MPLS_TC_TO_TC_MAP_LIST"
  }

  /** The names under which the values of a table are written and read. They differ only after a failed load,
      which leaves its table behind for the first table of the next. */
  datatype TableName = TableName(written: string, read: string)

  /** Leaf-lists that the configuration database stores as one text, with their separators. */
  function Separator(table: string, field: string): Option<char> {
    match (table, field)
    case ("MIRROR_SESSION", "src_ip") => Some(',')
    case ("NTP", "src_intf") => Some(';')
    case ("BGP_ALLOWED_PREFIXES", "prefixes_v4") => Some(',')
    case ("BGP_ALLOWED_PREFIXES", "prefixes_v6") => Some(',')
    case ("BUFFER_PORT_EGRESS_PROFILE_LIST", "profile_list") => Some(',')
    case ("BUFFER_PORT_INGRESS_PROFILE_LIST", "profile_list") => Some(',')
    case ("PORT", "adv_speeds") => Some(',')
    case ("PORT", "adv_interface_types") => Some(',')
    case _ => None
  }

  /** A field has the same separator in all tables in which it has one. */
  lemma SameSeparator(table: string, other: string, field: string)
    requires Separator(table, field).Some? && Separator(other, field).Some?
    ensures Separator(table, field) == Separator(other, field)
  {
  }

  /** The name under which `inner` stores the value of a pair: its last leaf that is not the key. */
  function PairValue(inner: InnerList): Option<string> {
    LastOther(inner.leaves, inner.key)
  }

  function LastOther(names: seq<string>, key: string): (r: Option<string>)
    ensures r.Some? ==> r.value != key
  {
    if names == [] then None
    else if names[|names| - 1] != key then Some(names[|names| - 1])
    else LastOther(names[..|names| - 1], key)
  }
}
