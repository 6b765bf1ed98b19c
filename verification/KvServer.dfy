/**
  The key/value server of src/kvsrv/server.go: a table of values and, for every client, the
  number of the request it will execute next and the reply to its last append.
 */
module KvServer {

  const UINT32 := 0x1_0000_0000

  datatype Op = Put | Append

  // PutAppendArgs, with the name of the handler it is sent to
  datatype Args = Args(op: Op, key: string, value: string, client: nat, rpcId: nat)

  // PutAppendReply
  datatype Reply = Reply(rpcId: int, value: string)

  datatype SyncInfo = SyncInfo(rpcId: nat, lastValue: string)

  datatype Server = Server(data: map<string, string>, clientsSync: map<nat, SyncInfo>)

  datatype Outcome = Handled(server: Server, reply: Reply) | Panic

  /** LoadOrStore: an unknown client starts with request 1. */
  function InfoOf(s: Server, client: nat): SyncInfo {
    if client in s.clientsSync then s.clientsSync[client] else SyncInfo(1, "")
  }

  function WithInfo(s: Server, client: nat, info: SyncInfo): Server {
    s.(clientsSync := s.clientsSync[client := info])
  }

  /** Put and Append, for the request whose turn it is. */
  function Execute(s: Server, a: Args, info: SyncInfo): Outcome {
    var next := info.(rpcId := (info.rpcId + 1) % UINT32);
    if a.op == Append && a.key in s.data then
      var was := s.data[a.key];
      Handled(WithInfo(s, a.client, next.(lastValue := was)).(data := s.data[a.key := was + a.value]),
              Reply(a.rpcId, was))
    else
      Handled(WithInfo(s, a.client, next).(data := s.data[a.key := a.value]), Reply(a.rpcId, ""))
  }

  /** syncRpcID, then Put or Append: requests already executed are answered without being executed. */
  function Handle(s: Server, a: Args): Outcome {
    var info := InfoOf(s, a.client);
    if info.rpcId > a.rpcId then
      Handled(WithInfo(s, a.client, info), Reply(info.rpcId - 1, info.lastValue))
    else if info.rpcId == a.rpcId then Execute(s, a, info)
    else Panic
  }

  // ---- what a request means

  function Lookup(data: map<string, string>, key: string): string {
    if key in data then data[key] else ""
  }

  function Effect(data: map<string, string>, a: Args): map<string, string> {
    data[a.key := match a.op case Put => a.value case Append => Lookup(data, a.key) + a.value]
  }

  /** Executing a request has its effect on the table, and counts it for its client only. */
  lemma ExecuteHasEffect(s: Server, a: Args)
    requires InfoOf(s, a.client).rpcId == a.rpcId
    ensures var o := Handle(s, a);
            && o.Handled?
            && o.server.data == Effect(s.data, a)
            && InfoOf(o.server, a.client).rpcId == (a.rpcId + 1) % UINT32
            && (forall c | c != a.client :: InfoOf(o.server, c) == InfoOf(s, c))
            && o.reply.rpcId == a.rpcId
            && o.reply.value == if a.op == Append then Lookup(s.data, a.key) else ""
  {
    assert "" + a.value == a.value;
  }

  /** A request that has been executed is not executed again, but answered as the client's last one. */
  lemma ResendHasNoEffect(s: Server, a: Args)
    requires InfoOf(s, a.client).rpcId > a.rpcId
    ensures var o := Handle(s, a);
            && o.Handled? && o.server.data == s.data && (forall c :: InfoOf(o.server, c) == InfoOf(s, c))
            && o.reply.rpcId + 1 == InfoOf(s, a.client).rpcId && o.reply.value == InfoOf(s, a.client).lastValue
  {
  }

  /** A request sent twice is answered twice exactly when its number is not the last 32-bit number. */
  lemma ResendIsSafe(s: Server, a: Args)
    requires InfoOf(s, a.client).rpcId == a.rpcId < UINT32
    ensures Handle(Handle(s, a).server, a).Handled? <==> a.rpcId < UINT32 - 1
  {
  }

  /**
    The second answer is the first one exactly when the request is an append to a key that was
    there, or no append of that client has been answered with anything yet.
   */
  lemma ResendSameReply(s: Server, a: Args)
    requires InfoOf(s, a.client).rpcId == a.rpcId < UINT32 - 1
    ensures var first := Handle(s, a);
            Handle(first.server, a).reply == first.reply <==>
            (a.op == Append && a.key in s.data) || InfoOf(s, a.client).lastValue == ""
  {
  }

  // ---- the server as an object

  class KVServer {
    var data: map<string, string>
    var clientsSync: map<nat, SyncInfo>

    ghost function State(): Server
      reads this
    {
      Server(data, clientsSync)
    }

    constructor ()
      ensures State() == Server(map[], map[])
    {
      data, clientsSync := map[], map[];
    }

    /** syncRpcID: true when the request is to be executed. */
    method SyncRpcID(args: Args) returns (proceed: bool, reply: Reply)
      requires InfoOf(State(), args.client).rpcId >= args.rpcId  // panics otherwise
      modifies `clientsSync
      ensures proceed <==> InfoOf(old(State()), args.client).rpcId == args.rpcId
      ensures !proceed ==> Handled(State(), reply) == Handle(old(State()), args)
      ensures proceed ==>
                var info := InfoOf(old(State()), args.client);
                State() == WithInfo(old(State()), args.client, info.(rpcId := (info.rpcId + 1) % UINT32))
                && reply == Reply(args.rpcId, "")
    {
      var info := if args.client in clientsSync then clientsSync[args.client] else SyncInfo(1, "");
      if info.rpcId > args.rpcId {
        clientsSync := clientsSync[args.client := info];
        return false, Reply(info.rpcId - 1, info.lastValue);
      }
      clientsSync := clientsSync[args.client := info.(rpcId := (info.rpcId + 1) % UINT32)];
      return true, Reply(info.rpcId, "");
    }

    method PutValue(args: Args) returns (reply: Reply)
      requires args.op == Put && InfoOf(State(), args.client).rpcId >= args.rpcId
      modifies this
      ensures Handled(State(), reply) == Handle(old(State()), args)
    {
      var proceed;
      proceed, reply := SyncRpcID(args);
      if !proceed {
        return;
      }
      data := data[args.key := args.value];
    }

    method AppendValue(args: Args) returns (reply: Reply)
      requires args.op == Append && InfoOf(State(), args.client).rpcId >= args.rpcId
      modifies this
      ensures Handled(State(), reply) == Handle(old(State()), args)
    {
      var proceed;
      proceed, reply := SyncRpcID(args);
      if !proceed {
        return;
      }
      if args.key in data {
        reply := reply.(value := data[args.key]);
        clientsSync := clientsSync[args.client := clientsSync[args.client].(lastValue := data[args.key])];
        data := data[args.key := data[args.key] + args.value];
      } else {
        data := data[args.key := args.value];
      }
    }

    method Get(key: string) returns (value: string)
      ensures value == Lookup(data, key)
    {
      value := if key in data then data[key] else "";
    }
  }
}
