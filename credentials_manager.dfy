/**
 * The credentials form: per-environment counts of the loaded credentials, the loading of the
 * list (an empty list when it fails), and saving, which sends the trimmed fields and on success
 * clears them and reloads the list. The backend calls are parameters.
 */
module CredentialsManager {
  import opened Wrappers
  import opened Text
  import opened Common
  import opened Credentials

  function OfEnv(list: seq<CredentialInfo>, e: Environment): seq<CredentialInfo> {
    Filter(list, (c: CredentialInfo) => c.environment == e)
  }

  /** `getSandboxCount`: the loaded sandbox credentials, 0 before anything is loaded. */
  function SandboxCount(existing: Option<seq<CredentialInfo>>): (n: nat)
    ensures existing.None? ==> n == 0
    ensures existing.Some? ==> n == |OfEnv(existing.value, Sandbox)| && n <= |existing.value|
  {
    if existing.Some? then |OfEnv(existing.value, Sandbox)| else 0
  }

  /** `getLiveCount`: the loaded live credentials, 0 before anything is loaded. */
  function LiveCount(existing: Option<seq<CredentialInfo>>): (n: nat)
    ensures existing.None? ==> n == 0
    ensures existing.Some? ==> n == |OfEnv(existing.value, Live)| && n <= |existing.value|
  {
    if existing.Some? then |OfEnv(existing.value, Live)| else 0
  }

  /** Every loaded credential is counted once: the two counts add up to the whole list. */
  lemma {:induction false} CountsPartition(list: seq<CredentialInfo>)
    ensures SandboxCount(Some(list)) + LiveCount(Some(list)) == |list|
  {
    if |list| > 0 {
      CountsPartition(list[1..]);
    }
  }

  /** The form: the chosen environment, the three text fields, and the loaded list (none at first). */
  datatype Form = Form(environment: Environment, clientId: string, clientSecret: string, remark: string)

  /** The request the form sends: the environment and the three fields trimmed. */
  function SaveRequestOf(f: Form): SaveRequest {
    SaveRequest(f.environment, Trim(f.clientId), Trim(f.clientSecret), Trim(f.remark))
  }

  /** What the form sends carries no white space at either end of any field. */
  lemma SentFieldsTrimmed(f: Form)
    ensures var req := SaveRequestOf(f);
            && req.environment == f.environment
            && Trim(req.clientId) == req.clientId && Trim(req.clientSecret) == req.clientSecret
            && Trim(req.remark) == req.remark
  {
    TrimIdempotent(f.clientId);
    TrimIdempotent(f.clientSecret);
    TrimIdempotent(f.remark);
  }

  /** Trimming in the form does not change what the server's checks decide about the fields. */
  lemma FormTrimAgreesWithServer(f: Form)
    ensures ValidateSave(SaveRequestOf(f)) == ValidateSave(SaveRequest(f.environment, f.clientId, f.clientSecret, f.remark))
  {
    TrimIdempotent(f.clientId);
    TrimIdempotent(f.clientSecret);
    TrimIdempotent(f.remark);
  }

  class CredentialsForm {
    var environment: Environment
    var clientId: string
    var clientSecret: string
    var remark: string
    /** `existingCredentials?.credentials`: None until a load finishes. */
    var existing: Option<seq<CredentialInfo>>

    function FormOf(): Form
      reads this
    {
      Form(environment, clientId, clientSecret, remark)
    }

    constructor ()
      ensures FormOf() == Form(Sandbox, "", "", "") && existing.None?
    {
      environment := Sandbox;
      clientId := "";
      clientSecret := "";
      remark := "";
      existing := None;
    }

    /** `loadExistingCredentials`: a failed load shows an empty list. */
    method LoadExisting(answer: Result<seq<CredentialInfo>>)
      modifies this
      ensures existing == Some(if answer.Ok? then answer.value else [])
      ensures FormOf() == old(FormOf())
    {
      if answer.Ok? {
        existing := Some(answer.value);
      } else {
        existing := Some([]);
      }
    }

    /**
     * `handleSaveCredentials`: sends the trimmed fields; on success clears the three text fields and
     * reloads the list, on failure leaves everything as it was.
     */
    method Save(save: SaveRequest -> Outcome, reload: Result<seq<CredentialInfo>>) returns (sent: SaveRequest)
      modifies this
      ensures sent == SaveRequestOf(old(FormOf()))
      ensures save(sent).Pass? ==>
                && FormOf() == Form(old(environment), "", "", "")
                && existing == Some(if reload.Ok? then reload.value else [])
      ensures save(sent).Fail? ==> FormOf() == old(FormOf()) && existing == old(existing)
    {
      sent := SaveRequestOf(FormOf());
      var outcome := save(sent);
      if outcome.Pass? {
        clientId := "";
        clientSecret := "";
        remark := "";
        LoadExisting(reload);
      }
    }
  }
}
