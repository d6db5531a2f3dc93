/** The messages etmemd sends to memRouter: a page list cut into pieces of at most 512 entries. */
module MemdcdProtocol {
  datatype Page = Page(addr: nat, length: nat, visits: int)

  datatype Status = Start | Process | End

  datatype Message = Message(pid: int, total: nat, status: Status, payload: seq<Page>)

  const MAX_VMA_NUM := 512

  ghost function Payloads(ms: seq<Message>): seq<Page> {
    if ms == [] then [] else Payloads(ms[..|ms| - 1]) + ms[|ms| - 1].payload
  }
}
