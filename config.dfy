/**
 * The proxy's configuration record (`Proxy`) and its users, with the
 * builder methods that fill it. In the source each builder takes the record
 * by value (`mut self`) and returns it, so a builder is a record update here.
 */
module Config {

  import opened Base

  /** An IPv4 address as its 32-bit value. */
  type Ipv4Addr = a: nat | a < 0x1_0000_0000

  /** An IPv6 address as its 128-bit value. */
  type Ipv6Addr = a: nat | a < 0x1_0000_0000_0000_0000_0000_0000_0000_0000

  datatype User = User(login: string, pass: string)

  /** `connectTimeout` is a duration; only whether one is set matters to the core. */
  datatype Proxy = Proxy(
    users: seq<User>,
    bindIpv4: Option<Ipv4Addr>,
    bindIpv6: Option<Ipv6Addr>,
    nodelay: bool,
    connectTimeout: Option<nat>)
  {
    /** `Proxy::default()`: no users (authentication off), no bind addresses,
        Nagle left on, no connect deadline. */
    static function Default(): (p: Proxy)
      ensures p.users == [] && p.bindIpv4 == None && p.bindIpv6 == None
      ensures !p.nodelay && p.connectTimeout == None
    {
      Proxy([], None, None, false, None)
    }

    /** Appends one credential pair; every other setting is kept. */
    function AddUser(login: string, pass: string): (p: Proxy)
      ensures |p.users| == |users| + 1
      ensures p.users[..|users|] == users && p.users[|users|] == User(login, pass)
      ensures p.(users := users) == this
    {
      this.(users := users + [User(login, pass)])
    }

    /** Sets the IPv4 source address for bound connects; every other setting is kept. */
    function SetBindIpv4(addr: Ipv4Addr): (p: Proxy)
      ensures p.bindIpv4 == Some(addr)
      ensures p.(bindIpv4 := bindIpv4) == this
    {
      this.(bindIpv4 := Some(addr))
    }

    /** Sets the IPv6 source address for bound connects; every other setting is kept. */
    function SetBindIpv6(addr: Ipv6Addr): (p: Proxy)
      ensures p.bindIpv6 == Some(addr)
      ensures p.(bindIpv6 := bindIpv6) == this
    {
      this.(bindIpv6 := Some(addr))
    }

    /** Sets the Nagle flag; every other setting is kept. */
    function SetNodelay(nodelay: bool): (p: Proxy)
      ensures p.nodelay == nodelay
      ensures p.(nodelay := this.nodelay) == this
    {
      this.(nodelay := nodelay)
    }
  }
}
