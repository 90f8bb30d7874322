/** The flow records handed to a flow device, at byte level (lib_flow.h). */
module FlowTypes {
  import opened Numerals

  /** enum flow_tuple */
  type TupleId = n: int | 0 <= n < 30
  const IN_PORT: TupleId := 0
  const IN_PHY_PORT: TupleId := 1
  const DL_SRC: TupleId := 2
  const DL_DST: TupleId := 3
  const DL_TYPE: TupleId := 4
  const DL_VLAN_PCP: TupleId := 5
  const NW4_SRC: TupleId := 6
  const NW4_DST: TupleId := 7
  const NW_PROTO: TupleId := 10
  const NW_ECN: TupleId := 11
  const NW_TOS: TupleId := 12
  const TP_SRC: TupleId := 13
  const TP_DST: TupleId := 14

  /** enum flow_action */
  type ActionId = n: int | 0 <= n < 39
  const DROP: ActionId := 1
  const OUT_PORT: ActionId := 2

  /** The constants of the two enumerations, by number. */
  const FLOW_TUPLES: seq<string> := [
    "in_port", "in_phy_port", "dl_src", "dl_dst", "dl_type", "dl_vlan_pcp",
    "nw4_src", "nw4_dst", "nw6_src", "nw6_dst", "nw_proto", "nw_ecn", "nw_tos",
    "tp_src", "tp_dst", "udp_src", "udp_dst", "ipv6_label", "mpls_label", "ipv6_ext_hdr",
    "icmp4_code", "icmp6_code", "icmp6_tll", "icmp6_sll", "ip6_nd_target",
    "arp_op", "arp_spa", "arp_sha", "arp_tpa", "arp_tha"]

  const FLOW_ACTIONS: seq<string> := [
    "fwd_queue", "drop", "out_port", "push_vlan_id", "pop_vlan_id", "set_vlan_id", "set_vlan_priority",
    "push_mpls", "pop_mpls", "set_dl_src", "set_dl_dst", "set_ip_src", "set_ip_dst", "set_tcp_src",
    "set_tcp_dst", "set_dscp", "set_ecn", "set_ip_ttl", "dec_ip_ttl", "set_ip_flabel",
    "set_extended_header", "set_mpls", "set_mpls_traffic", "set_mpls_ttl", "set_mpls_header",
    "dec_mpls_ttl", "copy_in_ttl", "copy_out_ttl", "set_bottom_stack", "set_icmp_code", "set_icmp_type",
    "set_icmp_nd", "set_nd_sll", "meter", "set_sha", "set_spa", "set_tha", "set_tpa", "set_arp_op"]

  /** unsigned char value[16] */
  type Block = s: seq<Byte> | |s| == 16 witness [0, 0, 0, 0, 0, 0, 0, 0, 0, 0, 0, 0, 0, 0, 0, 0]

  datatype Tuple = Tuple(id: TupleId, value: Block)

  datatype Action = Action(id: ActionId, value: Block)

  /** What a command line determines of a record: its id and the leading bytes it wrote. */
  datatype Stored<Id> = Stored(id: Id, bytes: seq<Byte>)

  predicate TupleHolds(t: Tuple, f: Stored<TupleId>) {
    t.id == f.id && f.bytes <= t.value
  }

  predicate ActionHolds(a: Action, f: Stored<ActionId>) {
    a.id == f.id && f.bytes <= a.value
  }

  predicate TuplesHold(ts: seq<Tuple>, fs: seq<Stored<TupleId>>) {
    |ts| == |fs| && forall i :: 0 <= i < |ts| ==> TupleHolds(ts[i], fs[i])
  }

  predicate ActionsHold(xs: seq<Action>, fs: seq<Stored<ActionId>>) {
    |xs| == |fs| && forall i :: 0 <= i < |xs| ==> ActionHolds(xs[i], fs[i])
  }

  datatype Cmd = NoCommand | Add | Del | Dump

  /** One call of f_add, f_delete or f_lookup, as far as the command line determines it. */
  datatype FlowCall = FlowCall(cmd: Cmd, dev: int, tbl: int,
                               tuples: seq<Stored<TupleId>>, actions: seq<Stored<ActionId>>)
}
