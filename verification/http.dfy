/** The response envelope: a success payload with its status code, or a
    flat `{"error": message}` object with a non-2xx status. */
module Http {
  import opened Values

  datatype Payload =
    | NewId(id: int)                  // {"id": new_id}
    | Updated(count: nat)             // {"updated": count}
    | Deleted(count: nat)             // {"deleted": count}
    | Session(userId: int, token: string)
    | Saved                           // {"ok": true}
    | ProgressSaved(progress: real)   // {"ok": true, "progress": progress}
    | Progress(owner: int, progress: real)
    | NutrientGoal(veg: real, carb: real, protein: real)
    | ProfileView(viewer: int, displayName: Value, email: Value, avatarUrl: Value, bio: Value)

  datatype Response =
    | Ok(status: int, payload: Payload)
    | Err(status: int, message: string)

  /** An exception escaping a handler: Flask answers with its generic 500. */
  const InternalError: Response := Err(500, "Internal Server Error")

  const NotFound: Response := Err(404, "not found")
}
