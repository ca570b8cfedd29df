/** The per-chat session the handlers keep between updates
    (src/types/context.ts): the post being prepared, the activity being
    edited and the registration wizard's data. */
module Sessions {
  import opened Wrappers
  import opened Telegram

  datatype PostType = Forward | Direct | MediaGroupPost

  /** A post waiting for its targets to be confirmed; `content` is the
      admin's message, copied to every target. */
  datatype PendingPost = PendingPost(
    postType: PostType,
    content: Message,
    targetChannels: seq<int>,
    page: Option<int>)

  datatype RegistrationStep = RegionStep | DistrictStep | MahallahStep

  datatype RegistrationData = RegistrationData(
    chatId: int,
    adminId: int,
    adminName: String,
    step: RegistrationStep,
    regionId: Option<int>,
    districtId: Option<int>)

  class Session {
    var pendingPost: Option<PendingPost>
    var editingActivity: Option<String>
    var registrationData: Option<RegistrationData>

    /** The default session: nothing pending. */
    constructor()
      ensures pendingPost == None && editingActivity == None && registrationData == None
    {
      pendingPost := None;
      editingActivity := None;
      registrationData := None;
    }

    /** `ctx.session.editingActivity` is truthy. */
    predicate IsEditing()
      reads this
    {
      editingActivity.Some? && editingActivity.value != []
    }
  }
}
