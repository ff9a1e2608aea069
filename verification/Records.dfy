/** The structs of src/worker.c. */
module Records {
  import opened Wrappers
  import opened MsgPack
  import opened IntrusiveList
  import opened Endpoints
  import opened EndpointList
  import Requests
  import Reply

  /** A subscription: one node on the list of its socket, one on the list of its topic. */
  class Sub {
    const socket: Socket
    const topic: Topic
    const ofSocket: Link<Sub?>
    const ofTopic: Link<Sub?>
    var visited: bool

    constructor (socket: Socket, topic: Topic, ofSocket: Link<Sub?>, ofTopic: Link<Sub?>)
      ensures this.socket == socket && this.topic == topic && visited
      ensures this.ofSocket == ofSocket && this.ofTopic == ofTopic
    {
      this.socket, this.topic, this.ofSocket, this.ofTopic, visited := socket, topic, ofSocket, ofTopic, true;
    }
  }

  class Topic {
    const name: Bytes
    const subs: List<Sub?>

    constructor (name: Bytes)
      ensures this.name == name && fresh(subs) && subs.Valid() && subs.Attached() && subs.links == []
    {
      this.name := name;
      subs := new List<Sub?>();
    }
  }

  class Socket {
    const no: int
    const url: Bytes
    const protocol: Bytes  // the symbol of its protocol
    const protoid: int
    const subs: List<Sub?>
    const endpoints: SocketEndpoints
    var options: seq<Reply.Step>  // the nn_setsockopt calls made on it
    var state: Requests.Phase
    var requestId: nat
    var retryTime: nat
    ghost const uid: nat
    ghost var issue: Option<nat>
    ghost var lastTry: nat

    constructor (no: int, url: Bytes, protocol: Bytes, protoid: int, id: nat, retry: nat,
                 ghost uid: nat, ghost now: nat)
      ensures this.no == no && this.url == url && this.uid == uid
      ensures this.protocol == protocol && this.protoid == protoid
      ensures state == Requests.Starting && requestId == id && retryTime == retry && issue == None && lastTry == now
      ensures options == [] && endpoints.View() == Table([], true, [], Fine)
      ensures fresh(subs) && subs.Valid() && subs.Attached() && subs.links == []
      ensures fresh(endpoints) && fresh(endpoints.Footprint()) && endpoints.Valid()
    {
      this.no, this.url, this.uid, options := no, url, uid, [];
      this.protocol, this.protoid := protocol, protoid;
      state, requestId, retryTime := Requests.Starting, id, retry;
      issue, lastTry := None, now;
      subs := new List<Sub?>();
      endpoints := new SocketEndpoints();
    }
  }
}
