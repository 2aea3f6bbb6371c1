/** The pending-ticket part of `Server` (src/server/server.cpp), step by step, against TicketSpec. Calls hold
    `pending_conn_mutex_`, so each is atomic. Clock readings are parameters. */
module TicketTable {
  import opened TicketSpec

  class TicketTable {
    var pendingUserConns: map<Ticket, Info>
    var pendingUdpSessions: map<Ticket, Info>
    var ticketExpirationQueue: seq<TicketExpiration>
    ghost var clock: int
    ghost var registered: multiset<Ticket>
    ghost var redeemed: multiset<Ticket>

    ghost function State(): Table
      reads this
    {
      Table(pendingUserConns, pendingUdpSessions, ticketExpirationQueue, clock, registered, redeemed)
    }

    constructor (ghost now: int)
      ensures State() == New(now) && Valid(State())
    {
      pendingUserConns, pendingUdpSessions, ticketExpirationQueue := map[], map[], [];
      clock, registered, redeemed := now, multiset{}, multiset{};
    }

    method DoLazyCleanup(now: int)
      modifies this`pendingUserConns, this`pendingUdpSessions, this`ticketExpirationQueue
      ensures State() == Cleaned(old(State()), now)
    {
      while ticketExpirationQueue != []
        invariant Cleaned(State(), now) == Cleaned(old(State()), now)
        decreases |ticketExpirationQueue|
      {
        ghost var before := State();
        var oldest := ticketExpirationQueue[0];
        if now >= oldest.expiresAt {
          if oldest.isUdp {
            if oldest.ticket in pendingUdpSessions {
              pendingUdpSessions := pendingUdpSessions - {oldest.ticket};
            }
          } else {
            pendingUserConns := pendingUserConns - {oldest.ticket};
          }
          ticketExpirationQueue := ticketExpirationQueue[1..];
          assert Erase(before.udp, oldest.ticket) == if oldest.ticket in before.udp then before.udp - {oldest.ticket} else before.udp;
          assert State() == DropOldest(before);
        } else {
          break;
        }
      }
    }

    /** False when the table is full and the ticket is not taken. */
    method RegisterUserConn(ticket: Ticket, handle: nat, proxyName: string, cleanup: int, now: int) returns (ok: bool)
      requires Valid(State()) && clock <= cleanup <= now
      modifies this
      ensures State() == Registered(old(State()), false, ticket, Info(handle, proxyName, now), cleanup)
      ensures Valid(State()) && ok == !Full(Cleaned(old(State()), cleanup))
    {
      RegisteredValid(State(), false, ticket, Info(handle, proxyName, now), cleanup);
      hide Valid, Cleaned, Accepted;
      DoLazyCleanup(cleanup);
      clock := cleanup;
      if |pendingUserConns| + |pendingUdpSessions| >= MAX_PENDING_TICKETS {
        return false;
      }
      AddTcp(ticket, Info(handle, proxyName, now));
      return true;
    }

    method RegisterUdpSession(ticket: Ticket, handle: nat, proxyName: string, cleanup: int, now: int) returns (ok: bool)
      requires Valid(State()) && clock <= cleanup <= now
      modifies this
      ensures State() == Registered(old(State()), true, ticket, Info(handle, proxyName, now), cleanup)
      ensures Valid(State()) && ok == !Full(Cleaned(old(State()), cleanup))
    {
      RegisteredValid(State(), true, ticket, Info(handle, proxyName, now), cleanup);
      hide Valid, Cleaned, Accepted;
      DoLazyCleanup(cleanup);
      clock := cleanup;
      if |pendingUserConns| + |pendingUdpSessions| >= MAX_PENDING_TICKETS {
        return false;
      }
      AddUdp(ticket, Info(handle, proxyName, now));
      return true;
    }

    method AddTcp(ticket: Ticket, info: Info)
      modifies this
      ensures State() == Accepted(old(State()), false, ticket, info)
    {
      if ticket !in pendingUserConns {
        pendingUserConns := pendingUserConns[ticket := info];
      }
      ticketExpirationQueue := ticketExpirationQueue + [TicketExpiration(ticket, false, info.createdAt + LIFETIME)];
      clock, registered := info.createdAt, registered + multiset{ticket};
    }

    method AddUdp(ticket: Ticket, info: Info)
      modifies this
      ensures State() == Accepted(old(State()), true, ticket, info)
    {
      if ticket !in pendingUdpSessions {
        pendingUdpSessions := pendingUdpSessions[ticket := info];
      }
      ticketExpirationQueue := ticketExpirationQueue + [TicketExpiration(ticket, true, info.createdAt + LIFETIME)];
      clock, registered := info.createdAt, registered + multiset{ticket};
    }

    /** The lookup in `HandleNewMuxStream`. */
    method TakeTicket(ticket: Ticket) returns (foundTcp: bool, foundUdp: bool, handle: nat, proxyName: string)
      requires Valid(State())
      modifies this
      ensures State() == Redeemed(old(State()), ticket) && Valid(State())
      ensures foundTcp == (ticket in old(pendingUserConns))
      ensures foundUdp == (!foundTcp && ticket in old(pendingUdpSessions))
      ensures foundTcp ==> handle == old(pendingUserConns)[ticket].handle && proxyName == old(pendingUserConns)[ticket].proxyName
      ensures foundUdp ==> handle == old(pendingUdpSessions)[ticket].handle && proxyName == old(pendingUdpSessions)[ticket].proxyName
    {
      ApplyValid(State(), Redeem(ticket));
      foundTcp, foundUdp, handle, proxyName := false, false, 0, "";
      if ticket in pendingUserConns {
        handle, proxyName := pendingUserConns[ticket].handle, pendingUserConns[ticket].proxyName;
        pendingUserConns := pendingUserConns - {ticket};
        foundTcp := true;
      } else if ticket in pendingUdpSessions {
        handle, proxyName := pendingUdpSessions[ticket].handle, pendingUdpSessions[ticket].proxyName;
        pendingUdpSessions := pendingUdpSessions - {ticket};
        foundUdp := true;
      }
      if foundTcp || foundUdp {
        redeemed := redeemed + multiset{ticket};
      }
    }

    /** Goes over one table, in any order, and erases the entries of the proxy. */
    static method EraseProxy(m: map<Ticket, Info>, proxyName: string) returns (r: map<Ticket, Info>)
      ensures r == Without(m, proxyName)
    {
      r := m;
      var ahead := m.Keys;
      while ahead != {}
        invariant ahead <= m.Keys && r.Keys <= m.Keys
        invariant forall t :: t in r ==> r[t] == m[t]
        invariant forall t :: t in ahead ==> t in r
        invariant forall t :: t in m && t !in ahead ==> (t in r <==> m[t].proxyName != proxyName)
        decreases ahead
      {
        var it :| it in ahead;
        if r[it].proxyName == proxyName {
          r := r - {it};
        }
        ahead := ahead - {it};
      }
    }

    method ClearPendingForProxy(proxyName: string)
      requires Valid(State())
      modifies this`pendingUserConns, this`pendingUdpSessions
      ensures State() == Cleared(old(State()), proxyName) && Valid(State())
    {
      ApplyValid(State(), Clear(proxyName));
      pendingUserConns := EraseProxy(pendingUserConns, proxyName);
      pendingUdpSessions := EraseProxy(pendingUdpSessions, proxyName);
    }
  }
}
