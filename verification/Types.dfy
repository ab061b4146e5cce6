/** The values every other module speaks about. */
module Types {

  datatype Option<+T> = None | Some(value: T)

  /** A layer-3 address and a layer-4 identifier (port or ICMP id), both in host order. */
  datatype Taddr4 = Taddr4(l3: nat, l4: nat)
  datatype Taddr6 = Taddr6(l3: nat, l4: nat)

  datatype Proto = TCP | UDP | ICMP

}
