/**
 * Socket establishment: `bind_socket`, `opensock`, `socket_nonblocking` and
 * `socket_blocking`, over an abstract operating system.
 *
 * Name resolution is an input (a `Resolution`, the list `getaddrinfo`
 * returns, in its order), and the success of each `socket`, `bind` and
 * `connect` call comes from an oracle indexed by the position of the
 * candidate (and of the local address) being tried. The `Os` object keeps
 * the set of open descriptors, their file status flags, and the `socket`,
 * `bind` and `connect` calls made on it, in order.
 */
module Sock {
  import opened Wrappers

  /** O_NONBLOCK as Linux defines it (04000). */
  const O_NONBLOCK: bv32 := 0x800
  /** What F_GETFL reports for a freshly created socket: O_RDWR. */
  const InitialFlags: bv32 := 0x2
  /** The -1 that `fcntl` returns on failure, read as 32 flag bits. */
  const FcntlError: bv32 := 0xFFFF_FFFF

  /** One `struct addrinfo` entry: family, socket type, protocol, socket address. */
  datatype Addr = Addr(family: int, socktype: int, protocol: int, sockaddr: seq<bv8>)

  /** The result of one `getaddrinfo` call. */
  datatype Resolution = ResolveFailed | Resolved(addrs: seq<Addr>)

  /**
   * The operating system's answers during one `opensock`: whether `socket`
   * succeeds for candidate i, whether binding candidate i's socket to the
   * j-th local address succeeds (`bindOk(i)(j)`), and whether connecting
   * candidate i succeeds.
   */
  datatype Oracle = Oracle(socketOk: nat -> bool, bindOk: nat -> nat -> bool, connectOk: nat -> bool)

  /** The operating system: open descriptors, their flags, and the calls made. */
  class Os {
    var open: set<int>
    var flags: map<int, bv32>
    /** The descriptor the next successful `socket` returns. */
    var next: int
    /** The candidates `socket` was called for. */
    var sockets: seq<Addr>
    /** The `bind` calls: descriptor and local address. */
    var binds: seq<(int, Addr)>
    /** The `connect` calls: descriptor and remote address. */
    var connects: seq<(int, Addr)>

    ghost predicate Valid()
      reads this
    {
      && flags.Keys == open
      && 0 <= next
      && forall fd :: fd in open ==> 0 <= fd < next
    }

    constructor ()
      ensures Valid() && open == {} && sockets == [] && binds == [] && connects == []
    {
      open := {};
      flags := map[];
      next := 0;
      sockets, binds, connects := [], [], [];
    }

    /** `socket(family, type, protocol)` for the candidate `remote`. */
    method Socket(remote: Addr, ok: bool) returns (fd: int)
      requires Valid()
      modifies this`open, this`flags, this`next, this`sockets
      ensures Valid()
      ensures sockets == old(sockets) + [remote]
      ensures ok ==> && fd == old(next) && fd >= 0 && fd !in old(open)
                     && open == old(open) + {fd} && flags == old(flags)[fd := InitialFlags]
      ensures !ok ==> fd == -1 && open == old(open) && flags == old(flags)
    {
      sockets := sockets + [remote];
      if ok {
        fd := next;
        open := open + {fd};
        flags := flags[fd := InitialFlags];
        next := next + 1;
      } else {
        fd := -1;
      }
    }

    /** `bind(fd, local)`: 0 on success, -1 on failure. */
    method Bind(fd: int, local: Addr, ok: bool) returns (r: int)
      modifies this`binds
      ensures binds == old(binds) + [(fd, local)]
      ensures r == if ok then 0 else -1
    {
      binds := binds + [(fd, local)];
      r := if ok then 0 else -1;
    }

    /** `connect(fd, remote)`: 0 on success, -1 on failure. */
    method Connect(fd: int, remote: Addr, ok: bool) returns (r: int)
      modifies this`connects
      ensures connects == old(connects) + [(fd, remote)]
      ensures r == if ok then 0 else -1
    {
      connects := connects + [(fd, remote)];
      r := if ok then 0 else -1;
    }

    /** `close(fd)` */
    method Close(fd: int)
      requires Valid()
      modifies this`open, this`flags
      ensures Valid()
      ensures open == old(open) - {fd} && flags == old(flags) - {fd}
    {
      open := open - {fd};
      flags := flags - {fd};
    }

    /** `fcntl(fd, F_GETFL, 0)` */
    method GetFl(fd: int) returns (f: bv32)
      ensures fd in flags ==> f == flags[fd]
      ensures fd !in flags ==> f == FcntlError
    {
      f := if fd in flags then flags[fd] else FcntlError;
    }

    /** `fcntl(fd, F_SETFL, f)`: 0 on success, -1 for a descriptor that is not open. */
    method SetFl(fd: int, f: bv32) returns (r: int)
      requires Valid()
      modifies this`flags
      ensures Valid()
      ensures fd in old(flags) ==> r == 0 && flags == old(flags)[fd := f]
      ensures fd !in old(flags) ==> r == -1 && flags == old(flags)
    {
      if fd in flags {
        flags := flags[fd := f];
        r := 0;
      } else {
        r := -1;
      }
    }
  }

  // ---------------------------------------------------------------------
  // Flag helpers
  // ---------------------------------------------------------------------

  /** The flags after setting O_NONBLOCK: that bit set, every other bit kept. */
  function WithNonblock(f: bv32): (r: bv32)
    ensures r & O_NONBLOCK == O_NONBLOCK
    ensures r & !O_NONBLOCK == f & !O_NONBLOCK
  {
    f | O_NONBLOCK
  }

  /** The flags after clearing O_NONBLOCK: that bit clear, every other bit kept. */
  function WithoutNonblock(f: bv32): (r: bv32)
    ensures r & O_NONBLOCK == 0
    ensures r & !O_NONBLOCK == f & !O_NONBLOCK
  {
    f & !O_NONBLOCK
  }

  /** `socket_nonblocking`: read the flags, write them back with O_NONBLOCK set. */
  method SocketNonblocking(os: Os, sock: int) returns (r: int)
    requires sock >= 0
    requires os.Valid()
    modifies os`flags
    ensures os.Valid()
    ensures sock in old(os.flags) ==> r == 0 && os.flags == old(os.flags)[sock := WithNonblock(old(os.flags)[sock])]
    ensures sock !in old(os.flags) ==> r == -1 && os.flags == old(os.flags)
  {
    var flags := os.GetFl(sock);
    r := os.SetFl(sock, WithNonblock(flags));
  }

  /** `socket_blocking`: read the flags, write them back with O_NONBLOCK clear. */
  method SocketBlocking(os: Os, sock: int) returns (r: int)
    requires sock >= 0
    requires os.Valid()
    modifies os`flags
    ensures os.Valid()
    ensures sock in old(os.flags) ==> r == 0 && os.flags == old(os.flags)[sock := WithoutNonblock(old(os.flags)[sock])]
    ensures sock !in old(os.flags) ==> r == -1 && os.flags == old(os.flags)
  {
    var flags := os.GetFl(sock);
    r := os.SetFl(sock, WithoutNonblock(flags));
  }

  /**
   * Non-blocking then blocking gives back the original flags except for
   * O_NONBLOCK, and exactly the original flags when O_NONBLOCK was clear.
   */
  lemma NonblockingThenBlocking(f: bv32)
    ensures WithoutNonblock(WithNonblock(f)) & !O_NONBLOCK == f & !O_NONBLOCK
    ensures f & O_NONBLOCK == 0 ==> WithoutNonblock(WithNonblock(f)) == f
  {
  }

  /** Blocking then non-blocking restores flags that had O_NONBLOCK set. */
  lemma BlockingThenNonblocking(f: bv32)
    ensures f & O_NONBLOCK == O_NONBLOCK ==> WithNonblock(WithoutNonblock(f)) == f
  {
  }

  // ---------------------------------------------------------------------
  // bind_socket
  // ---------------------------------------------------------------------

  /** The index of the first i < n with ok(i), or n when there is none. */
  function FirstTrue(ok: nat -> bool, n: nat): (k: nat)
    ensures k <= n
    ensures forall j :: 0 <= j < k ==> !ok(j)
    ensures k < n ==> ok(k)
  {
    FirstTrueFrom(ok, 0, n)
  }

  function FirstTrueFrom(ok: nat -> bool, i: nat, n: nat): (k: nat)
    requires i <= n
    ensures i <= k <= n
    ensures forall j :: i <= j < k ==> !ok(j)
    ensures k < n ==> ok(k)
    decreases n - i
  {
    if i == n then n
    else if ok(i) then i
    else FirstTrueFrom(ok, i + 1, n)
  }

  /** Some resolved local address accepts the bind. */
  predicate Binds(local: Resolution, bindOk: nat -> bool) {
    local.Resolved? && exists j :: 0 <= j < |local.addrs| && bindOk(j)
  }

  /** One `bind` of `fd` per address, in order. */
  function BindCalls(fd: int, addrs: seq<Addr>): (r: seq<(int, Addr)>)
    ensures |r| == |addrs|
    ensures forall j :: 0 <= j < |addrs| ==> r[j] == (fd, addrs[j])
  {
    seq(|addrs|, j requires 0 <= j < |addrs| => (fd, addrs[j]))
  }

  /**
   * The binds `bind_socket` makes: the resolved addresses in order, up to
   * and including the first that succeeds; none when resolution fails.
   */
  function BindTrace(fd: int, local: Resolution, bindOk: nat -> bool): seq<(int, Addr)> {
    if local.ResolveFailed? then []
    else
      var k := FirstTrue(bindOk, |local.addrs|);
      BindCalls(fd, local.addrs[..if k < |local.addrs| then k + 1 else k])
  }

  /**
   * `bind_socket(sockfd, addr)`: resolve `addr` (any port) and bind to the
   * resolved addresses in turn until one succeeds. Returns `sockfd`, or -1
   * when resolution fails or no address binds.
   */
  method BindSocket(os: Os, sockfd: int, addr: string, resolve: string -> Resolution, bindOk: nat -> bool)
    returns (r: int)
    requires sockfd >= 0
    requires |addr| > 0
    modifies os`binds
    ensures r == (if Binds(resolve(addr), bindOk) then sockfd else -1)
    ensures os.binds == old(os.binds) + BindTrace(sockfd, resolve(addr), bindOk)
  {
    var res := resolve(addr);
    if res.ResolveFailed? {
      return -1;
    }
    var i := 0;
    while i < |res.addrs|
      invariant 0 <= i <= |res.addrs|
      invariant forall j :: 0 <= j < i ==> !bindOk(j)
      invariant os.binds == old(os.binds) + BindCalls(sockfd, res.addrs[..i])
    {
      var b := os.Bind(sockfd, res.addrs[i], bindOk(i));
      assert BindCalls(sockfd, res.addrs[..i + 1]) == BindCalls(sockfd, res.addrs[..i]) + [(sockfd, res.addrs[i])];
      if b == 0 {
        assert FirstTrue(bindOk, |res.addrs|) == i;
        return sockfd;
      }
      i := i + 1;
    }
    assert res.addrs[..i] == res.addrs;
    return -1;
  }

  /** The binds of `bind_socket` are in resolver order and stop at the first success. */
  lemma {:induction false} BindTraceInOrder(fd: int, addrs: seq<Addr>, bindOk: nat -> bool, k: nat)
    requires k < |addrs| && bindOk(k)
    requires forall j :: 0 <= j < k ==> !bindOk(j)
    ensures BindTrace(fd, Resolved(addrs), bindOk) == BindCalls(fd, addrs[..k + 1])
    ensures Binds(Resolved(addrs), bindOk)
  {
    var m := FirstTrue(bindOk, |addrs|);
    assert m == k;
  }

  // ---------------------------------------------------------------------
  // opensock
  // ---------------------------------------------------------------------

  /** The local address `opensock` binds to: `bind_to` first, else the configured one. */
  function BindAddress(bindTo: Option<string>, configured: Option<string>): (r: Option<string>)
    ensures bindTo.Some? ==> r == bindTo
    ensures bindTo.None? ==> r == configured
    ensures r.None? <==> bindTo.None? && configured.None?
  {
    if bindTo.Some? then bindTo else configured
  }

  /** Candidate i gets a socket, binds when a bind address is given, and connects. */
  predicate CandidateOk(o: Oracle, resolve: string -> Resolution, bindAddr: Option<string>, i: nat) {
    && o.socketOk(i)
    && (bindAddr.None? || Binds(resolve(bindAddr.value), o.bindOk(i)))
    && o.connectOk(i)
  }

  /** Candidate k is the first one that succeeds. */
  predicate FirstSuccess(o: Oracle, resolve: string -> Resolution, bindAddr: Option<string>, k: nat) {
    CandidateOk(o, resolve, bindAddr, k) && forall j :: 0 <= j < k ==> !CandidateOk(o, resolve, bindAddr, j)
  }

  /**
   * The part of the `opensock` loop body that follows a successful
   * `socket`: bind `fd` to `bind_to` when given, else to the configured
   * bind address when there is one, then connect it to `remote`. True when
   * `fd` ends up connected; the caller closes it otherwise.
   */
  method BindAndConnect(os: Os, fd: int, remote: Addr, bindTo: Option<string>, configBind: Option<string>,
                        resolve: string -> Resolution, bindOk: nat -> bool, connectOk: bool)
    returns (connected: bool)
    requires fd >= 0
    requires BindAddress(bindTo, configBind).Some? ==> |BindAddress(bindTo, configBind).value| > 0
    modifies os`binds, os`connects
    ensures var bindAddr := BindAddress(bindTo, configBind);
      connected <==> (bindAddr.None? || Binds(resolve(bindAddr.value), bindOk)) && connectOk
    ensures var bindAddr := BindAddress(bindTo, configBind);
      os.binds == old(os.binds) + (if bindAddr.None? then [] else BindTrace(fd, resolve(bindAddr.value), bindOk))
    ensures var bindAddr := BindAddress(bindTo, configBind);
      bindAddr.Some? && !Binds(resolve(bindAddr.value), bindOk) ==> os.connects == old(os.connects)
    ensures var bindAddr := BindAddress(bindTo, configBind);
      (bindAddr.None? || Binds(resolve(bindAddr.value), bindOk)) ==> os.connects == old(os.connects) + [(fd, remote)]
    ensures connected ==> os.connects == old(os.connects) + [(fd, remote)]
    ensures !connected ==> |os.connects| <= |old(os.connects)| + 1
  {
    var bound := true;
    if bindTo.Some? {
      var b := BindSocket(os, fd, bindTo.value, resolve, bindOk);
      bound := b >= 0;
    } else if configBind.Some? {
      var b := BindSocket(os, fd, configBind.value, resolve, bindOk);
      bound := b >= 0;
    }
    if !bound {
      return false;
    }
    var c := os.Connect(fd, remote, connectOk);
    connected := c == 0;
  }

  /**
   * One pass of the `opensock` loop body for candidate i: create a socket
   * (a failure skips the candidate), bind and connect it, and close it if
   * either fails. Returns the connected descriptor, or -1.
   */
  method TryCandidate(os: Os, remote: Addr, i: nat, bindTo: Option<string>, configBind: Option<string>,
                      resolve: string -> Resolution, o: Oracle) returns (fd: int)
    requires os.Valid()
    requires BindAddress(bindTo, configBind).Some? ==> |BindAddress(bindTo, configBind).value| > 0
    modifies os
    ensures os.Valid()
    ensures fd >= 0 <==> CandidateOk(o, resolve, BindAddress(bindTo, configBind), i)
    ensures fd >= 0 ==> fd !in old(os.open) && os.open == old(os.open) + {fd}
    ensures fd < 0 ==> fd == -1 && os.open == old(os.open)
    ensures forall d :: d in old(os.open) ==> d in os.flags && os.flags[d] == old(os.flags)[d]
    ensures os.sockets == old(os.sockets) + [remote]
    ensures fd >= 0 ==> os.connects == old(os.connects) + [(fd, remote)]
  {
    fd := os.Socket(remote, o.socketOk(i));
    if fd < 0 {
      return;
    }
    var connected := BindAndConnect(os, fd, remote, bindTo, configBind, resolve, o.bindOk(i), o.connectOk(i));
    if !connected {
      os.Close(fd);
      fd := -1;
    }
  }

  /**
   * `opensock`: try the resolved candidates in order and return the first
   * descriptor that is created, bound when asked, and connected; -1 when
   * resolution fails or every candidate fails. Nothing a failed candidate
   * opened is left open, and no candidate after the winner is tried.
   */
  method OpenSock(os: Os, cands: Resolution, bindTo: Option<string>, configBind: Option<string>,
                  resolve: string -> Resolution, o: Oracle) returns (r: int)
    requires os.Valid()
    requires BindAddress(bindTo, configBind).Some? ==> |BindAddress(bindTo, configBind).value| > 0
    modifies os
    ensures os.Valid()
    ensures cands.ResolveFailed? ==> r == -1 && os.sockets == old(os.sockets)
    ensures forall d :: d in old(os.open) ==> d in os.flags && os.flags[d] == old(os.flags)[d]
    ensures r >= 0 <==>
      cands.Resolved? && exists k :: 0 <= k < |cands.addrs| && CandidateOk(o, resolve, BindAddress(bindTo, configBind), k)
    ensures r >= 0 ==> r !in old(os.open) && os.open == old(os.open) + {r}
    ensures r < 0 ==> r == -1 && os.open == old(os.open)
    ensures r >= 0 ==> cands.Resolved?
    ensures r >= 0 ==>
      exists k :: (0 <= k < |cands.addrs|
                   && FirstSuccess(o, resolve, BindAddress(bindTo, configBind), k)
                   && os.sockets == old(os.sockets) + cands.addrs[..k + 1]
                   && |os.connects| > 0 && os.connects[|os.connects| - 1] == (r, cands.addrs[k]))
    ensures r < 0 && cands.Resolved? ==> os.sockets == old(os.sockets) + cands.addrs
  {
    if cands.ResolveFailed? {
      return -1;
    }
    var addrs := cands.addrs;
    ghost var bindAddr := BindAddress(bindTo, configBind);
    var i := 0;
    while i < |addrs|
      invariant 0 <= i <= |addrs|
      invariant os.Valid() && os.open == old(os.open)
      invariant forall d :: d in old(os.open) ==> d in os.flags && os.flags[d] == old(os.flags)[d]
      invariant os.sockets == old(os.sockets) + addrs[..i]
      invariant forall j :: 0 <= j < i ==> !CandidateOk(o, resolve, bindAddr, j)
    {
      var fd := TryCandidate(os, addrs[i], i, bindTo, configBind, resolve, o);
      assert addrs[..i + 1] == addrs[..i] + [addrs[i]];
      if fd >= 0 {
        assert FirstSuccess(o, resolve, bindAddr, i);
        return fd;
      }
      i := i + 1;
    }
    assert addrs[..i] == addrs;
    return -1;
  }
}
