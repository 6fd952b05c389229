/** The per-IP connection cap: a join is refused when more players than the
    configured maximum are online from the joining player's IP. The online
    list is taken as the IPs of every online player at check time, the
    joining player included. */
module IpLimit {
  import opened Text
  import opened Effects

  /** `countOnlinePlayersByIp`: how many online players have this IP,
      ignoring case. */
  function CountOnlinePlayersByIp(ip: string, online: seq<string>): (count: nat)
    ensures count <= |online|
    ensures count == 0 <==> forall i :: 0 <= i < |online| ==> !EqualsIgnoreCase(ip, online[i])
    ensures count == |online| <==> forall i :: 0 <= i < |online| ==> EqualsIgnoreCase(ip, online[i])
  {
    if |online| == 0 then 0
    else
      var prefix := online[..|online| - 1];
      assert forall i :: 0 <= i < |prefix| ==> prefix[i] == online[i];
      CountOnlinePlayersByIp(ip, prefix) + (if EqualsIgnoreCase(ip, online[|online| - 1]) then 1 else 0)
  }

  /** The positions of the online list whose IP matches. */
  function MatchingSlots(ip: string, online: seq<string>): set<nat>
  {
    set i: nat | i < |online| && EqualsIgnoreCase(ip, online[i])
  }

  /** The count is the number of matching positions of the online list. */
  lemma {:induction false} CountIsMatchingSlots(ip: string, online: seq<string>)
    ensures CountOnlinePlayersByIp(ip, online) == |MatchingSlots(ip, online)|
  {
    if |online| == 0 {
      assert MatchingSlots(ip, online) == {};
    } else {
      var n := |online| - 1;
      var prefix := online[..n];
      CountIsMatchingSlots(ip, prefix);
      var before := MatchingSlots(ip, prefix);
      if EqualsIgnoreCase(ip, online[n]) {
        assert MatchingSlots(ip, online) == before + {n};
        assert n !in before;
      } else {
        assert MatchingSlots(ip, online) == before;
      }
    }
  }

  /** Counting over two lists of players adds up. */
  lemma {:induction false} CountAppend(ip: string, a: seq<string>, b: seq<string>)
    ensures CountOnlinePlayersByIp(ip, a + b) == CountOnlinePlayersByIp(ip, a) + CountOnlinePlayersByIp(ip, b)
  {
    if |b| > 0 {
      var ab := a + b;
      assert ab[..|ab| - 1] == a + b[..|b| - 1];
      assert ab[|ab| - 1] == b[|b| - 1];
      CountAppend(ip, a, b[..|b| - 1]);
    } else {
      assert a + b == a;
    }
  }

  /** The count treats IPs that differ only in case as the same IP. */
  lemma {:induction false} CountIgnoresCase(ip1: string, ip2: string, online: seq<string>)
    requires EqualsIgnoreCase(ip1, ip2)
    ensures CountOnlinePlayersByIp(ip1, online) == CountOnlinePlayersByIp(ip2, online)
  {
    if |online| > 0 {
      var last := online[|online| - 1];
      CountIgnoresCase(ip1, ip2, online[..|online| - 1]);
      EqualsIgnoreCaseIsLowerEquality(ip1, ip2);
      EqualsIgnoreCaseIsLowerEquality(ip1, last);
      EqualsIgnoreCaseIsLowerEquality(ip2, last);
    }
  }

  /** The two loopback spellings the check exempts, ignoring case. */
  predicate IsLoopback(ip: string)
  {
    EqualsIgnoreCase("127.0.0.1", ip) || EqualsIgnoreCase("localhost", ip)
  }

  /** `validatePlayerCountForIp`: the check passes, scheduling nothing, when
      the cap is off (at most 0), the player may have several accounts, the IP
      is a loopback address, or at most `maxJoins` players are online from the
      IP; otherwise it schedules one kick with the same-IP message. */
  function ValidatePlayerCountForIp(maxJoins: int, allowMultipleAccounts: bool, ip: string,
                                    online: seq<string>): (g: Gate)
    ensures g.passed <==> maxJoins <= 0 || allowMultipleAccounts || IsLoopback(ip)
                          || CountOnlinePlayersByIp(ip, online) <= maxJoins
    ensures g.passed <==> g.effects == []
    ensures !g.passed ==> g.effects == [Kick(SameIpOnline)]
  {
    if maxJoins > 0 && !allowMultipleAccounts && !IsLoopback(ip)
       && CountOnlinePlayersByIp(ip, online) > maxJoins
    then Gate(false, [Kick(SameIpOnline)])
    else Gate(true, [])
  }

  /** More players online never turns a refused join into an accepted one. */
  lemma MorePlayersNeverHelp(maxJoins: int, allow: bool, ip: string, online: seq<string>, more: seq<string>)
    requires !ValidatePlayerCountForIp(maxJoins, allow, ip, online).passed
    ensures !ValidatePlayerCountForIp(maxJoins, allow, ip, online + more).passed
  {
    CountAppend(ip, online, more);
  }

  /** The verdict does not depend on the case of the IP. */
  lemma VerdictIgnoresCase(maxJoins: int, allow: bool, ip1: string, ip2: string, online: seq<string>)
    requires EqualsIgnoreCase(ip1, ip2)
    ensures ValidatePlayerCountForIp(maxJoins, allow, ip1, online)
         == ValidatePlayerCountForIp(maxJoins, allow, ip2, online)
  {
    CountIgnoresCase(ip1, ip2, online);
    if EqualsIgnoreCase("127.0.0.1", ip1) || EqualsIgnoreCase("127.0.0.1", ip2) {
      EqualsIgnoreCaseTransitive("127.0.0.1", ip1, ip2);
      EqualsIgnoreCaseTransitive("127.0.0.1", ip2, ip1);
    }
    if EqualsIgnoreCase("localhost", ip1) || EqualsIgnoreCase("localhost", ip2) {
      EqualsIgnoreCaseTransitive("localhost", ip1, ip2);
      EqualsIgnoreCaseTransitive("localhost", ip2, ip1);
    }
  }

  /** With a cap of 2, a third player from one IP is refused while a player
      from another IP with nobody else online from it gets in. */
  lemma CapOfTwoExample()
    ensures !ValidatePlayerCountForIp(2, false, "10.0.0.1", ["10.0.0.1", "10.0.0.1", "10.0.0.1"]).passed
    ensures ValidatePlayerCountForIp(2, false, "10.0.0.2", ["10.0.0.1", "10.0.0.1", "10.0.0.1", "10.0.0.2"]).passed
  {
    var x := ["10.0.0.1", "10.0.0.1", "10.0.0.1"];
    assert forall i :: 0 <= i < |x| ==> EqualsIgnoreCase("10.0.0.1", x[i]);
    assert !IsLoopback("10.0.0.1");
    var y := x + ["10.0.0.2"];
    assert CountOnlinePlayersByIp("10.0.0.2", y) <= 1 by {
      assert LowerChar("10.0.0.2"[7]) != LowerChar("10.0.0.1"[7]);
      assert forall i :: 0 <= i < |x| ==> !EqualsIgnoreCase("10.0.0.2", x[i]);
      CountAppend("10.0.0.2", x, ["10.0.0.2"]);
    }
  }
}
