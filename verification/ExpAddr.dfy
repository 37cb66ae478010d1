/** `struct exp_addr` of expand.h:80-106: one address of an expansion, a node of the link graph.
  * The link lists are sequences; `null` among the parents marks an original recipient.
  */
module ExpAddrNode {

  class ExpAddr {
    const addr: string
    const isDn: bool
    // the address that was being expanded when this one was created, and how many such steps led here
    ghost const anchor: ExpAddr?
    ghost const depth: nat
    var terminal: bool
    var antiLoop: int
    // e_addr_ldap_flags, one field a bit
    var memonly: bool
    var supressor: bool
    var supressed: bool
    var emailSender: bool
    var noEmailSender: bool
    var rootPath: bool
    var noRootPath: bool
    // the group's own DN, the DNs of groups permitted to send to it, and its pending envelopes
    var dn: string
    var okDns: seq<string>
    var moderatedEnv: bool
    var forwardEnv: bool
    var parents: seq<ExpAddr?>
    var children: seq<ExpAddr>

    constructor (addr: string, isDn: bool, ghost anchor: ExpAddr?)
      ensures this.addr == addr && this.isDn == isDn && this.anchor == anchor
      ensures anchor != null ==> depth == anchor.depth + 1
      ensures !terminal && antiLoop == 0
      ensures !memonly && !supressor && !supressed && !emailSender && !noEmailSender && !rootPath && !noRootPath
      ensures dn == "" && okDns == [] && !moderatedEnv && !forwardEnv && parents == [] && children == []
    {
      this.addr, this.isDn, this.anchor := addr, isDn, anchor;
      this.depth := if anchor == null then 0 else anchor.depth + 1;
      terminal, antiLoop := false, 0;
      memonly, supressor, supressed, emailSender, noEmailSender := false, false, false, false, false;
      rootPath, noRootPath, moderatedEnv, forwardEnv := false, false, false, false;
      dn, okDns, parents, children := "", [], [], [];
    }
  }
}
