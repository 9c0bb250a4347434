/** The durable wrapper as the service runs it: every method calls the in-memory store and,
    unless that failed, replaces the state file. */
module FileStore {
  import opened Wrappers
  import opened Requests
  import opened Durable
  import opened MemoryStore

  /** The file at the store's path; it outlives the process. Replacing it is atomic. */
  class StateFile {
    var content: Option<State>

    constructor ()
      ensures content == None
    {
      content := None;
    }
  }

  class FileStore {
    const path: string
    const file: StateFile
    const mem: InMemoryStore

    function Contents(): Store
      reads mem, file
    {
      Store(mem.Contents(), file.content)
    }

    constructor (path: string, file: StateFile, mem: InMemoryStore)
      ensures this.path == path && this.file == file && this.mem == mem
    {
      this.path := path;
      this.file := file;
      this.mem := mem;
    }

    /** Opens the store; `readable` is false when the file cannot be read or parsed. Whatever a
        previous process left in memory is gone: what counts is the file. */
    static method NewFileStore(path: string, file: StateFile, readable: bool, sha256Hex: string -> string)
      returns (store: FileStore?)
      ensures store == null <==> path == "" || !readable
      ensures store != null ==> fresh(store) && fresh(store.mem) && store.file == file && store.mem.sha256Hex == sha256Hex
      ensures store != null ==> forall lost: State :: store.Contents() == Reopen(Store(lost, file.content))
    {
      if path == "" {
        return null;
      }
      var mem := new InMemoryStore(sha256Hex);
      store := new FileStore(path, file, mem);
      var ok := store.Load(readable);
      if !ok {
        return null;
      }
    }

    method Load(readable: bool) returns (ok: bool)
      modifies mem
      ensures ok == readable
      ensures mem.Contents() == if readable && file.content.Some? then file.content.value else old(mem.Contents())
    {
      if !readable {
        return false;
      }
      if file.content.None? {
        return true;
      }
      var state := file.content.value;
      mem.items := state.items;
      mem.installSessions := state.installs.sessions;
      mem.installTokens := state.installs.tokens;
      return true;
    }

    /** Write aside, then rename: the file is replaced entirely or not at all. */
    method Persist(writeOk: bool) returns (ok: bool)
      modifies file
      ensures ok == writeOk
      ensures file.content == if writeOk then Some(mem.Contents()) else old(file.content)
    {
      if writeOk {
        file.content := Some(mem.Contents());
      }
      return writeOk;
    }

    method Create(input: CreateInput, now: Time, id: string, nonce: string, writeOk: bool) returns (reply: Reply)
      modifies mem, file
      ensures StoreOutcome(Contents(), reply)
           == Serve(old(Contents()), OnRequest(RequestOp.Create(input, id, nonce)), now, writeOk)
    {
      hide Apply;
      reply := mem.Create(input, now, id, nonce);
      if !reply.Success() {
        return Bare(reply);
      }
      var ok := Persist(writeOk);
      if !ok {
        return Failure(WriteFailed);
      }
    }

    method Get(id: string, now: Time, writeOk: bool) returns (reply: Reply)
      modifies mem, file
      ensures StoreOutcome(Contents(), reply) == Serve(old(Contents()), OnRequest(RequestOp.Get(id)), now, writeOk)
    {
      hide Apply;
      reply := mem.Get(id, now);
      if !reply.Success() {
        return Bare(reply);
      }
      var _ := Persist(writeOk);
    }

    method ListPendingForDevice(device: string, readings: map<string, Time>, now: Time, writeOk: bool)
      returns (out: seq<ConnectionRequest>, ghost keys: seq<string>)
      modifies mem, file
      ensures StoreOutcome(Contents(), ListReply(set r | r in out))
           == Serve(old(Contents()), OnRequest(ListPending(device, readings)), now, writeOk)
      ensures ListsOnce(mem.items, mem.items.Keys, device, out, keys)
    {
      hide Apply;
      out, keys := mem.ListPendingForDevice(device, readings, now);
      var _ := Persist(writeOk);
    }

    method SetLocalDecision(id: string, approved: bool, now: Time, writeOk: bool) returns (reply: Reply)
      modifies mem, file
      ensures StoreOutcome(Contents(), reply) == Serve(old(Contents()), OnRequest(Decide(id, approved)), now, writeOk)
    {
      hide Apply;
      reply := mem.SetLocalDecision(id, approved, now);
      if !reply.Success() {
        return Bare(reply);
      }
      var ok := Persist(writeOk);
      if !ok {
        return Failure(WriteFailed);
      }
    }

    method SetResult(id: string, status: Status, reasonCode: string, now: Time, writeOk: bool) returns (reply: Reply)
      modifies mem, file
      ensures StoreOutcome(Contents(), reply)
           == Serve(old(Contents()), OnRequest(Report(id, status, reasonCode)), now, writeOk)
    {
      hide Apply;
      reply := mem.SetResult(id, status, reasonCode, now);
      if !reply.Success() {
        return Bare(reply);
      }
      var ok := Persist(writeOk);
      if !ok {
        return Failure(WriteFailed);
      }
    }

    method CreateInstallSession(input: CreateInput, now: Time, id: string, token: string, writeOk: bool)
      returns (reply: Reply, minted: string)
      modifies mem, file
      ensures StoreOutcome(Contents(), reply)
           == Serve(old(Contents()), OnInstall(Mint(input, id, mem.DigestInstallToken(token))), now, writeOk)
      ensures minted == if reply.Success() then token else ""
    {
      hide Apply;
      reply, minted := mem.CreateInstallSession(input, now, id, token);
      if !reply.Success() {
        return Bare(reply), "";
      }
      var ok := Persist(writeOk);
      if !ok {
        return Failure(WriteFailed), "";
      }
    }

    method GetInstallSession(id: string, now: Time, writeOk: bool) returns (reply: Reply)
      modifies mem, file
      ensures StoreOutcome(Contents(), reply) == Serve(old(Contents()), OnInstall(GetSession(id)), now, writeOk)
    {
      hide Apply;
      reply := mem.GetInstallSession(id, now);
      if !reply.Success() {
        return Bare(reply);
      }
      var _ := Persist(writeOk);
    }

    method SetInstallApproval(id: string, approved: bool, now: Time, writeOk: bool) returns (reply: Reply)
      modifies mem, file
      ensures StoreOutcome(Contents(), reply) == Serve(old(Contents()), OnInstall(Approve(id, approved)), now, writeOk)
    {
      hide Apply;
      reply := mem.SetInstallApproval(id, approved, now);
      if !reply.Success() {
        return Bare(reply);
      }
      var ok := Persist(writeOk);
      if !ok {
        return Failure(WriteFailed);
      }
    }

    method SetInstallResult(id: string, status: InstallStatus, reasonCode: string, now: Time, writeOk: bool)
      returns (reply: Reply)
      modifies mem, file
      ensures StoreOutcome(Contents(), reply)
           == Serve(old(Contents()), OnInstall(InstallReport(id, status, reasonCode)), now, writeOk)
    {
      hide Apply;
      reply := mem.SetInstallResult(id, status, reasonCode, now);
      if !reply.Success() {
        return Bare(reply);
      }
      var ok := Persist(writeOk);
      if !ok {
        return Failure(WriteFailed);
      }
    }

    method SetInstallIdentity(id: string, connector: string, device: string, now: Time, writeOk: bool)
      returns (reply: Reply)
      modifies mem, file
      ensures StoreOutcome(Contents(), reply)
           == Serve(old(Contents()), OnInstall(Identify(id, connector, device)), now, writeOk)
    {
      hide Apply;
      reply := mem.SetInstallIdentity(id, connector, device, now);
      if !reply.Success() {
        return Bare(reply);
      }
      var ok := Persist(writeOk);
      if !ok {
        return Failure(WriteFailed);
      }
    }

    method RedeemInstallToken(token: string, now: Time, writeOk: bool) returns (reply: Reply)
      modifies mem, file
      ensures StoreOutcome(Contents(), reply)
           == Serve(old(Contents()), OnInstall(Redeem(mem.DigestInstallToken(token))), now, writeOk)
    {
      hide Apply;
      reply := mem.RedeemInstallToken(token, now);
      if !reply.Success() {
        return Bare(reply);
      }
      var ok := Persist(writeOk);
      if !ok {
        return Failure(WriteFailed);
      }
    }
  }
}
