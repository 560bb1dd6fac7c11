/**
 * `LocalIp`: the server address stamped on every envelope. The host's
 * interface addresses are an input here; asking the operating system for them
 * is not modelled.
 */
module Net {

  /**
   * One entry of the host's interface address list: whether it is an `*net.IPNet`
   * at all, whether its IP is a loopback address, whether it has a 4-byte form
   * (`To4() != nil`), and the text `IP.String()` gives for it.
   */
  datatype Addr = Addr(isIPNet: bool, loopback: bool, ipv4: bool, text: string)

  /** The addresses the selection loop takes. */
  predicate Candidate(a: Addr)
  {
    a.isIPNet && !a.loopback && a.ipv4
  }

  /** The address `LocalIp` settles on: the last candidate in list order, or "localhost". */
  function SelectedIp(addrs: seq<Addr>): string
    decreases |addrs|
  {
    if addrs == [] then "localhost"
    else if Candidate(addrs[|addrs| - 1]) then addrs[|addrs| - 1].text
    else SelectedIp(addrs[..|addrs| - 1])
  }

  /**
   * The loop of `LocalIp`: it starts from "localhost" and overwrites the answer
   * with every candidate it meets, without stopping at the first.
   */
  method LocalIp(addrs: seq<Addr>) returns (ip: string)
    ensures ip == SelectedIp(addrs)
  {
    ip := "localhost";
    for i := 0 to |addrs|
      invariant ip == SelectedIp(addrs[..i])
    {
      assert addrs[..i + 1][..i] == addrs[..i];
      if Candidate(addrs[i]) {
        ip := addrs[i].text;
      }
    }
    assert addrs[..|addrs|] == addrs;
  }

  /**
   * With no candidate the answer is "localhost"; otherwise it is the text of
   * the candidate that no later entry of the list supersedes.
   */
  lemma {:induction false} SelectedIpIsLastCandidate(addrs: seq<Addr>)
    ensures (forall i :: 0 <= i < |addrs| ==> !Candidate(addrs[i])) ==> SelectedIp(addrs) == "localhost"
    ensures forall k :: 0 <= k < |addrs| && Candidate(addrs[k]) && (forall j :: k < j < |addrs| ==> !Candidate(addrs[j])) ==>
              SelectedIp(addrs) == addrs[k].text
    decreases |addrs|
  {
    if addrs != [] {
      var init := addrs[..|addrs| - 1];
      SelectedIpIsLastCandidate(init);
      assert forall i :: 0 <= i < |init| ==> init[i] == addrs[i];
    }
  }
}
