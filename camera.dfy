/** Camera follow: the camera sits at a fixed offset from the character and looks at it. */
module Camera {
  import opened Vectors

  /** `cameraFollowOffset` of the page script. */
  const FollowOffset: Vec3 := Vec3(0.0, 1.0, 5.0)

  /** Where the camera is put and what it is turned towards. */
  datatype Pose = Pose(position: Vec3, lookAt: Vec3)

  /** The camera pose for a target at position `target`. */
  function Follow(target: Vec3): (p: Pose)
    ensures p.lookAt == target
    ensures Sub(p.position, p.lookAt) == FollowOffset
  {
    Pose(Add(target, FollowOffset), target)
  }
}
